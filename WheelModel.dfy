/**
 * The 3D steering wheel: tactile buttons whose pressure ramps up while held and down once
 * released, reporting every positive pressure to the page's pressure handler; the grip
 * areas that report hand positions; the scrollable back of the wheel; and what is shown
 * in each lifecycle state.
 */
module WheelModel {
  import opened Common
  import opened SteeringWheel

  function Min(a: int, b: int): int { if a <= b then a else b }
  function Max(a: int, b: int): int { if a >= b then a else b }

  /** One frame of a tactile button: +10 up to 100 while held, -20 down to 0 once released. */
  function NextPressure(pressure: int, pressed: bool): (next: int)
    ensures 0 <= pressure <= 100 ==> 0 <= next <= 100
    ensures pressed ==> next >= pressure
    ensures !pressed ==> next <= pressure
  {
    if pressed && pressure < 100 then Min(pressure + 10, 100)
    else if !pressed && pressure > 0 then Max(pressure - 20, 0)
    else pressure
  }

  /** The pressure after `frames` frames with the button held (or not) throughout. */
  function Ramp(pressure: int, pressed: bool, frames: nat): (after: int)
    ensures 0 <= pressure <= 100 ==> 0 <= after <= 100
    ensures pressed ==> after >= pressure
    ensures !pressed ==> after <= pressure
    decreases frames
  {
    if frames == 0 then pressure else Ramp(NextPressure(pressure, pressed), pressed, frames - 1)
  }

  /** Held for n frames, the pressure is p + 10n, capped at 100. */
  lemma {:induction false} PressRampClosedForm(pressure: int, frames: nat)
    requires 0 <= pressure <= 100
    ensures Ramp(pressure, true, frames) == Min(pressure + 10 * frames, 100)
    decreases frames
  {
    if frames > 0 {
      PressRampClosedForm(NextPressure(pressure, true), frames - 1);
    }
  }

  /** Released for n frames, the pressure is p - 20n, floored at 0. */
  lemma {:induction false} ReleaseRampClosedForm(pressure: int, frames: nat)
    requires 0 <= pressure <= 100
    ensures Ramp(pressure, false, frames) == Max(pressure - 20 * frames, 0)
    decreases frames
  {
    if frames > 0 {
      ReleaseRampClosedForm(NextPressure(pressure, false), frames - 1);
    }
  }

  /** What the press effect reports after a frame: the new pressure when it changed and is positive. */
  function FrameReport(before: int, after: int): Option<int> {
    if after != before && after > 0 then Some(after) else None
  }

  /** The pressures reported to `onPress` over `frames` frames, in order. */
  function Emitted(pressure: int, pressed: bool, frames: nat): (reports: seq<int>)
    ensures |reports| <= frames
    decreases frames
  {
    if frames == 0 then []
    else
      var next := NextPressure(pressure, pressed);
      (if FrameReport(pressure, next).Some? then [next] else []) + Emitted(next, pressed, frames - 1)
  }

  /**
   * Only positive pressures are reported, and they move one way: each report of a held
   * button is higher than the last, and each report of a released one lower.
   */
  lemma {:induction false} EmittedOrdered(pressure: int, pressed: bool, frames: nat)
    ensures forall k :: 0 <= k < |Emitted(pressure, pressed, frames)| ==> 0 < Emitted(pressure, pressed, frames)[k]
    ensures forall k :: 0 <= k < |Emitted(pressure, pressed, frames)| ==>
      (pressed ==> pressure < Emitted(pressure, pressed, frames)[k]) && (!pressed ==> pressure > Emitted(pressure, pressed, frames)[k])
    ensures pressed ==> forall k, l :: 0 <= k < l < |Emitted(pressure, pressed, frames)| ==>
      pressure < Emitted(pressure, pressed, frames)[k] < Emitted(pressure, pressed, frames)[l]
    ensures !pressed ==> forall k, l :: 0 <= k < l < |Emitted(pressure, pressed, frames)| ==>
      pressure > Emitted(pressure, pressed, frames)[k] > Emitted(pressure, pressed, frames)[l]
    decreases frames
  {
    if frames > 0 {
      var next := NextPressure(pressure, pressed);
      EmittedOrdered(next, pressed, frames - 1);
      var rest := Emitted(next, pressed, frames - 1);
      var head := if FrameReport(pressure, next).Some? then [next] else [];
      var all := Emitted(pressure, pressed, frames);
      assert all == head + rest;
      forall k | 0 <= k < |all|
        ensures 0 < all[k]
        ensures pressed ==> pressure < all[k]
        ensures !pressed ==> pressure > all[k]
      {
        if k >= |head| {
          assert all[k] == rest[k - |head|];
        }
      }
      forall k, l | 0 <= k < l < |all|
        ensures pressed ==> pressure < all[k] < all[l]
        ensures !pressed ==> pressure > all[k] > all[l]
      {
        assert all[l] == rest[l - |head|];
        if k < |head| {
          assert all[k] == next && next != pressure;
        } else {
          assert all[k] == rest[k - |head|];
        }
      }
    }
  }

  /** Frames of holding that still raise the pressure. */
  function PressSteps(pressure: int): nat {
    if pressure >= 100 then 0 else (109 - pressure) / 10
  }

  /** Frames of releasing that still leave a positive pressure. */
  function ReleaseSteps(pressure: int): nat {
    if pressure <= 0 then 0 else (pressure - 1) / 20
  }

  /**
   * Held from pressure p, the button reports p + 10, p + 20, ... (the last one capped at
   * 100), once per frame, and nothing once it reaches 100.
   */
  lemma {:induction false} PressReports(pressure: int, frames: nat)
    requires 0 <= pressure <= 100
    ensures |Emitted(pressure, true, frames)| == Min(frames, PressSteps(pressure))
    ensures forall i :: 0 <= i < |Emitted(pressure, true, frames)| ==>
      Emitted(pressure, true, frames)[i] == Min(pressure + 10 * (i + 1), 100)
    decreases frames
  {
    if frames == 0 {
    } else if pressure == 100 {
      StillRampReportsNothing(true, frames);
    } else {
      var next := NextPressure(pressure, true);
      PressReports(next, frames - 1);
      var rest := Emitted(next, true, frames - 1);
      assert Emitted(pressure, true, frames) == [next] + rest;
      forall i | 0 < i < |Emitted(pressure, true, frames)|
        ensures Emitted(pressure, true, frames)[i] == Min(pressure + 10 * (i + 1), 100)
      {
        assert Emitted(pressure, true, frames)[i] == rest[i - 1];
      }
    }
  }

  /** Released from pressure p, the button reports p - 20, p - 40, ... while they are positive. */
  lemma {:induction false} ReleaseReports(pressure: int, frames: nat)
    requires 0 <= pressure <= 100
    ensures |Emitted(pressure, false, frames)| == Min(frames, ReleaseSteps(pressure))
    ensures forall i :: 0 <= i < |Emitted(pressure, false, frames)| ==>
      Emitted(pressure, false, frames)[i] == pressure - 20 * (i + 1)
    decreases frames
  {
    if frames == 0 {
    } else if pressure == 0 {
      StillRampReportsNothing(false, frames);
    } else {
      var next := NextPressure(pressure, false);
      ReleaseReports(next, frames - 1);
      var rest := Emitted(next, false, frames - 1);
      if next == 0 {
        StillRampReportsNothing(false, frames - 1);
      } else {
        assert Emitted(pressure, false, frames) == [next] + rest;
        forall i | 0 < i < |Emitted(pressure, false, frames)|
          ensures Emitted(pressure, false, frames)[i] == pressure - 20 * (i + 1)
        {
          assert Emitted(pressure, false, frames)[i] == rest[i - 1];
        }
      }
    }
  }

  /** A button at rest (released at 0, or held at 100) reports nothing. */
  lemma {:induction false} StillRampReportsNothing(pressed: bool, frames: nat)
    ensures Emitted(if pressed then 100 else 0, pressed, frames) == []
    decreases frames
  {
    if frames > 0 {
      StillRampReportsNothing(pressed, frames - 1);
    }
  }

  /**
   * Held from rest, a button is reported at 10, 20, ..., 100: the page reads the first two
   * reports as accidental touches and selects the button from the seventh report (70) on.
   */
  lemma PressFromRestSelectsAtSeventhReport(frames: nat)
    ensures forall i :: 0 <= i < |Emitted(0, true, frames)| ==>
      && Emitted(0, true, frames)[i] == 10 * (i + 1)
      && (Tier(Emitted(0, true, frames)[i]) == Intentional <==> i >= 6)
      && (Tier(Emitted(0, true, frames)[i]) == Accidental <==> i < 2)
    ensures |Emitted(0, true, frames)| == Min(frames, 10)
  {
    PressReports(0, frames);
  }

  /** The ramp after each frame agrees with one more step of `NextPressure`. */
  lemma {:induction false} RampStep(pressure: int, pressed: bool, frames: nat)
    ensures Ramp(pressure, pressed, frames + 1) == NextPressure(Ramp(pressure, pressed, frames), pressed)
    ensures Emitted(pressure, pressed, frames + 1) == Emitted(pressure, pressed, frames) +
      (var before := Ramp(pressure, pressed, frames);
       var r := FrameReport(before, NextPressure(before, pressed));
       if r.Some? then [r.value] else [])
    decreases frames
  {
    if frames > 0 {
      RampStep(NextPressure(pressure, pressed), pressed, frames - 1);
    }
  }

  /** `TactileButton`: hover and press flags from pointer events, and the pressure ramp. */
  class TactileButton {
    const name: string
    var hovered: bool
    var pressed: bool
    var pressure: int

    ghost predicate Valid()
      reads this
    {
      0 <= pressure <= 100
    }

    constructor (name: string)
      ensures Valid() && this.name == name
      ensures !hovered && !pressed && pressure == 0
    {
      this.name := name;
      hovered := false;
      pressed := false;
      pressure := 0;
    }

    method PointerOver()
      modifies this`hovered
      ensures hovered
    {
      hovered := true;
    }

    method PointerOut()
      modifies this`hovered
      ensures !hovered
    {
      hovered := false;
    }

    method PointerDown()
      modifies this`pressed
      ensures pressed
    {
      pressed := true;
    }

    method PointerUp()
      modifies this`pressed
      ensures !pressed
    {
      pressed := false;
    }

    /**
     * One frame, followed by the press effect: the pressure takes one ramp step, and a
     * change to a positive pressure is reported as `onPress(pressure, label)`.
     */
    method Frame() returns (report: Option<int>)
      requires Valid()
      modifies this`pressure
      ensures Valid()
      ensures pressure == NextPressure(old(pressure), pressed)
      ensures report == FrameReport(old(pressure), pressure)
      ensures report.Some? ==> report.value > 0 && report.value != old(pressure)
    {
      var before := pressure;
      if pressed && pressure < 100 {
        pressure := Min(pressure + 10, 100);
      } else if !pressed && pressure > 0 {
        pressure := Max(pressure - 20, 0);
      }
      report := if pressure > 0 && pressure != before then Some(pressure) else None;
    }

    /**
     * The press effect also re-runs when the page hands the button a new pressure handler:
     * the current pressure is reported again if it is positive. The page re-creates that
     * handler when its selected button or the reader switch changes, and whenever either
     * provider re-renders (a queue or speaking-flag change, the sound backend starting),
     * since the provider functions it closes over are re-created on every render.
     */
    method OnPressReplaced() returns (report: Option<int>)
      requires Valid()
      ensures report.Some? <==> pressure > 0
      ensures report.Some? ==> report.value == pressure
    {
      report := if pressure > 0 then Some(pressure) else None;
    }

    /** The render loop running `frames` frames with the button held or released throughout. */
    method RunFrames(frames: nat) returns (reports: seq<int>)
      requires Valid()
      modifies this`pressure
      ensures Valid()
      ensures pressure == Ramp(old(pressure), pressed, frames)
      ensures reports == Emitted(old(pressure), pressed, frames)
    {
      reports := [];
      var i := 0;
      while i < frames
        invariant 0 <= i <= frames && Valid()
        invariant pressure == Ramp(old(pressure), pressed, i)
        invariant reports == Emitted(old(pressure), pressed, i)
      {
        RampStep(old(pressure), pressed, i);
        var r := Frame();
        if r.Some? {
          reports := reports + [r.value];
        }
        i := i + 1;
      }
    }
  }

  /**
   * Holding a button from rest until it is full reports 10, ..., 100; releasing it then
   * reports 80, 60, 40 and 20.
   */
  method PressAndRelease(name: string) returns (pressing: seq<int>, releasing: seq<int>)
    ensures pressing == [10, 20, 30, 40, 50, 60, 70, 80, 90, 100]
    ensures releasing == [80, 60, 40, 20]
  {
    var button := new TactileButton(name);
    button.PointerDown();
    pressing := button.RunFrames(10);
    PressRampClosedForm(0, 10);
    PressReports(0, 10);
    button.PointerUp();
    releasing := button.RunFrames(5);
    ReleaseReports(100, 5);
  }

  /** A button's place on the wheel, in hundredths of a scene unit, and its label. */
  datatype ButtonConfig = ButtonConfig(x: int, y: int, caption: string)

  /** `buttonConfigs`: the four buttons of each mode, upper left, upper right, lower left, lower right. */
  function ButtonConfigs(m: DriveMode): (configs: seq<ButtonConfig>)
    ensures |configs| == 4
    ensures forall i :: 0 <= i < 4 ==> configs[i].caption == ContextualButtons(m)[i]
  {
    var labels := match m
      case Drive => ["Media", "Phone", "Voice", "Cruise"]
      case Cruise => ["Speed+", "Speed-", "Distance", "Cancel"]
      case Parking => ["Camera", "Sensors", "Park Assist", "Emergency"];
    [ButtonConfig(-120, 40, labels[0]), ButtonConfig(120, 40, labels[1]),
     ButtonConfig(-120, -40, labels[2]), ButtonConfig(120, -40, labels[3])]
  }

  /** The wheel shows the page's four labels in the page's order, at the same four places in every mode. */
  lemma ButtonConfigsMatchPage(m: DriveMode, n: DriveMode)
    ensures forall i :: 0 <= i < 4 ==>
      ButtonConfigs(m)[i].x == ButtonConfigs(n)[i].x && ButtonConfigs(m)[i].y == ButtonConfigs(n)[i].y
  {
  }

  /** `handleGripHover`: the hovered side takes the hover flag and the other side is passed through. */
  function GripHover(isLeft: bool, isHovered: bool, left: bool, right: bool): (hands: (bool, bool))
    ensures (if isLeft then hands.0 else hands.1) == isHovered
    ensures (if isLeft then hands.1 == right else hands.0 == left)
  {
    if isLeft then (isHovered, right) else (left, isHovered)
  }

  /** The contextual buttons are rendered in every state but inactive. */
  predicate ButtonsVisible(activeState: string): (visible: bool)
    ensures visible <==> ParseLifecycle(activeState) != Some(Inactive)
  {
    activeState != LifecycleName(Inactive)
  }

  /** The safety warning shows on an active wheel with at least one hand off it. */
  predicate SafetyWarningVisible(activeState: string, left: bool, right: bool): (visible: bool)
    ensures visible ==> ButtonsVisible(activeState) && !(left && right)
    ensures visible ==> ParseLifecycle(activeState) == Some(Active)
  {
    (!left || !right) && activeState == LifecycleName(Active)
  }

  /**
   * On an active wheel the warning shows exactly when the page's alert condition holds (a
   * hand off the wheel); in every other state, known or not, it never shows.
   */
  lemma SafetyWarningMatchesAlert(activeState: string, left: bool, right: bool)
    ensures activeState == "active" ==> (SafetyWarningVisible(activeState, left, right) <==> !(left && right))
    ensures activeState != "active" ==> !SafetyWarningVisible(activeState, left, right)
  {
  }

  /** At most the first four contacts are listed. */
  function ListedContacts<T>(contacts: seq<T>): (listed: seq<T>)
    ensures |listed| <= 4 && listed <= contacts
    ensures |contacts| <= 4 ==> listed == contacts
  {
    if |contacts| <= 4 then contacts else contacts[..4]
  }

  datatype ScrollDirection = Up | Down

  function Abs(x: int): nat { if x < 0 then -x else x }

  /** The wheel-event rule: only with the list shown, a listener, and |deltaY| > 5. */
  function WheelScroll(showContactsList: bool, hasOnScroll: bool, deltaY: int): (d: Option<ScrollDirection>)
    ensures d.Some? <==> showContactsList && hasOnScroll && Abs(deltaY) > 5
    ensures d == Some(Down) <==> showContactsList && hasOnScroll && deltaY > 5
  {
    if showContactsList && hasOnScroll && Abs(deltaY) > 5 then Some(if deltaY > 0 then Down else Up) else None
  }

  /** Pointer moves: only with the list shown and |movementY| > 3. */
  function PointerScroll(showContactsList: bool, movementY: int): (d: Option<ScrollDirection>)
    ensures d.Some? <==> showContactsList && Abs(movementY) > 3
    ensures d == Some(Down) <==> showContactsList && movementY > 3
  {
    if showContactsList && Abs(movementY) > 3 then Some(if movementY > 0 then Down else Up) else None
  }

  /** The scrollable back of the wheel. */
  class ScrollArea {
    const showContactsList: bool
    const hasOnScroll: bool
    var scrollDirection: Option<ScrollDirection>
    /** Timers that clear the highlighted direction, scheduled and not yet run. */
    var pendingResets: nat
    /** Every direction passed to `onScroll`, in order. */
    var scrolled: seq<ScrollDirection>

    constructor (showContactsList: bool, hasOnScroll: bool)
      ensures this.showContactsList == showContactsList && this.hasOnScroll == hasOnScroll
      ensures scrollDirection == None && pendingResets == 0 && scrolled == []
    {
      this.showContactsList := showContactsList;
      this.hasOnScroll := hasOnScroll;
      scrollDirection := None;
      pendingResets := 0;
      scrolled := [];
    }

    method OnWheel(deltaY: int)
      modifies this
      ensures var d := WheelScroll(showContactsList, hasOnScroll, deltaY);
        && scrollDirection == (if d.Some? then d else old(scrollDirection))
        && scrolled == old(scrolled) + (if d.Some? then [d.value] else [])
        && pendingResets == old(pendingResets) + (if d.Some? then 1 else 0)
    {
      if showContactsList && hasOnScroll && Abs(deltaY) > 5 {
        var direction := if deltaY > 0 then Down else Up;
        scrollDirection := Some(direction);
        scrolled := scrolled + [direction];
        pendingResets := pendingResets + 1;
      }
    }

    /** Unlike the wheel rule, this one highlights a direction even without a listener. */
    method OnPointerMove(movementY: int)
      modifies this
      ensures var d := PointerScroll(showContactsList, movementY);
        && scrollDirection == (if d.Some? then d else old(scrollDirection))
        && scrolled == old(scrolled) + (if d.Some? && hasOnScroll then [d.value] else [])
        && pendingResets == old(pendingResets) + (if d.Some? then 1 else 0)
    {
      if showContactsList && Abs(movementY) > 3 {
        var direction := if movementY > 0 then Down else Up;
        scrollDirection := Some(direction);
        if hasOnScroll {
          scrolled := scrolled + [direction];
        }
        pendingResets := pendingResets + 1;
      }
    }

    /** A clear timer fires. */
    method ClearScrollDirection()
      requires pendingResets > 0
      modifies this`scrollDirection, this`pendingResets
      ensures scrollDirection == None && pendingResets == old(pendingResets) - 1
    {
      scrollDirection := None;
      pendingResets := pendingResets - 1;
    }
  }
}
