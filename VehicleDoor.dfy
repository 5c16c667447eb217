/**
 * The smart vehicle-door page: a door panel whose controls depend on the vehicle mode and
 * on which door it is, a lifecycle that sets the LED strip's intensity, and handlers for
 * the window, lock, radio, trunk and LED controls. Every handler gives haptic feedback
 * through the sound player and, with the screen reader on, speech through the
 * accessibility service.
 */
module VehicleDoor {
  import opened Common
  import Accessibility
  import HapticSound

  datatype VehicleMode = Parked | Driving | Valet
  datatype DoorType = Driver | Passenger

  function ModeName(m: VehicleMode): string {
    match m
    case Parked => "parked"
    case Driving => "driving"
    case Valet => "valet"
  }

  function DoorName(d: DoorType): string {
    match d
    case Driver => "driver"
    case Passenger => "passenger"
  }

  /** The controls a door offers in a vehicle mode. */
  function Controls(mode: VehicleMode, door: DoorType): (controls: seq<string>)
    ensures mode == Valet ==> controls == ["Lock"]
    ensures mode == Driving ==> "Lock" !in controls && "Trunk" !in controls
    ensures "Trunk" in controls <==> mode == Parked && door == Driver
    ensures "Radio" in controls <==> mode != Valet && door == Passenger
    ensures "LED" in controls <==> mode != Valet && door == Driver
    ensures "Window" in controls <==> mode != Valet
    ensures "Lock" in controls <==> mode != Driving
    ensures forall c :: c in controls ==> c in KnownControls
  {
    match mode
    case Parked => (match door
      case Driver => ["Window", "Lock", "Trunk", "LED"]
      case Passenger => ["Window", "Lock", "Radio"])
    case Driving => (match door
      case Driver => ["Window", "LED"]
      case Passenger => ["Window", "Radio"])
    case Valet => ["Lock"]
  }

  /** The five controls a door panel can show, in the panel's order. */
  const KnownControls: seq<string> := ["Window", "Lock", "Radio", "Trunk", "LED"]

  /** LED intensity in percent that each lifecycle state sets. */
  function LedIntensityFor(s: Lifecycle): (pct: int)
    ensures 0 <= pct <= 100
    ensures pct == 100 <==> s == Active
    ensures pct == 0 <==> s == Inactive
  {
    match s
    case Active => 100
    case Proximity => 50
    case Inactive => 0
  }

  /** The radio button's next station: one up, and back to 1 after 5. */
  function NextStation(station: int): (next: int)
    ensures 1 <= station <= 5 ==> 1 <= next <= 5 && next == station % 5 + 1
  {
    if station >= 5 then 1 else station + 1
  }

  /** The station after `presses` presses of the radio button. */
  function StationAfter(station: int, presses: nat): int
    decreases presses
  {
    if presses == 0 then station else StationAfter(NextStation(station), presses - 1)
  }

  /** From any station in 1..5, the radio cycles through the five stations in order. */
  lemma {:induction false} StationsCycle(station: int, presses: nat)
    requires 1 <= station <= 5
    ensures StationAfter(station, presses) == (station - 1 + presses) % 5 + 1
    decreases presses
  {
    if presses > 0 {
      StationsCycle(NextStation(station), presses - 1);
    }
  }

  /** Five presses bring the radio back to the station it started on. */
  lemma FivePressesReturn(station: int)
    requires 1 <= station <= 5
    ensures StationAfter(station, 5) == station
  {
    StationsCycle(station, 5);
  }

  /** `activeControl` after a press: pressing the active control clears it. */
  function ToggledControl(current: Option<string>, control: string): (next: Option<string>)
    ensures next == Some(control) <==> current != Some(control)
    ensures next == None <==> current == Some(control)
  {
    if current == Some(control) then None else Some(control)
  }

  /** The page state the door panel shows. */
  datatype DoorPanel = DoorPanel(
    activeState: Lifecycle,
    mode: VehicleMode,
    activeControl: Option<string>,
    doorType: DoorType,
    windowPosition: int,
    doorLocked: bool,
    radioStation: int,
    ledIntensity: int,
    ledColor: string,
    proximityDetected: bool,
    trunkOpen: bool)

  /** The state change of `handleControlPress`. */
  function Press(p: DoorPanel, control: string): (q: DoorPanel)
    ensures q.(activeControl := p.activeControl, doorLocked := p.doorLocked,
               radioStation := p.radioStation, trunkOpen := p.trunkOpen) == p
    ensures q.activeControl == ToggledControl(p.activeControl, control)
    ensures q.doorLocked != p.doorLocked <==> control == "Lock"
    ensures q.trunkOpen != p.trunkOpen <==> control == "Trunk"
    ensures 1 <= p.radioStation <= 5 ==>
      1 <= q.radioStation <= 5 && (q.radioStation != p.radioStation <==> control == "Radio")
  {
    p.(activeControl := ToggledControl(p.activeControl, control),
       doorLocked := if control == "Lock" then !p.doorLocked else p.doorLocked,
       radioStation := if control == "Radio" then NextStation(p.radioStation) else p.radioStation,
       trunkOpen := if control == "Trunk" then !p.trunkOpen else p.trunkOpen)
  }

  /** The feedback of `handleControlPress`, from the state before the press. */
  function PressFeedback(p: DoorPanel, control: string): (fb: Option<Feedback>)
    ensures fb == None <==>
      control !in KnownControls || ((control == "Window" || control == "LED") && p.activeControl == Some(control))
    ensures fb.Some? && (control == "Lock" || control == "Trunk") ==> fb.value.intensity == Strong
    ensures fb.Some? && (control == "Window" || control == "LED") ==> fb.value.intensity == Medium
    ensures control == "Radio" ==> fb.Some? && fb.value.intensity == Light
  {
    if control == "Window" then
      if p.activeControl != Some("Window") then Some(Feedback("Window control activated", Medium)) else None
    else if control == "Lock" then
      Some(Feedback(if p.doorLocked then "Door unlocked" else "Door locked", Strong))
    else if control == "Radio" then
      Some(Feedback("Radio station " + IntToString(NextStation(p.radioStation)), Light))
    else if control == "Trunk" then
      Some(Feedback(if p.trunkOpen then "Trunk closed" else "Trunk opened", Strong))
    else if control == "LED" then
      if p.activeControl != Some("LED") then Some(Feedback("LED control activated", Medium)) else None
    else None
  }

  /**
   * Each press's message describes the state after the press, although the handler
   * computes it from the state before: the lock and trunk messages name the new position,
   * the radio message the new station, and Window and LED speak only when they become active.
   */
  lemma PressFeedbackDescribesResult(p: DoorPanel)
    ensures PressFeedback(p, "Lock") == Some(Feedback(if Press(p, "Lock").doorLocked then "Door locked" else "Door unlocked", Strong))
    ensures PressFeedback(p, "Trunk") == Some(Feedback(if Press(p, "Trunk").trunkOpen then "Trunk opened" else "Trunk closed", Strong))
    ensures PressFeedback(p, "Radio") == Some(Feedback("Radio station " + IntToString(Press(p, "Radio").radioStation), Light))
    ensures PressFeedback(p, "Window").Some? <==> Press(p, "Window").activeControl == Some("Window")
    ensures PressFeedback(p, "LED").Some? <==> Press(p, "LED").activeControl == Some("LED")
  {
  }

  /**
   * Pressing any control but the radio twice gives back the panel it started from, except
   * that a different control that was active is no longer; an unknown control changes only
   * `activeControl` and gives no feedback.
   */
  lemma PressTwiceRestores(p: DoorPanel, control: string)
    ensures control != "Radio" ==>
      Press(Press(p, control), control) == p.(activeControl := if p.activeControl == Some(control) then p.activeControl else None)
    ensures control !in KnownControls ==>
      Press(p, control) == p.(activeControl := ToggledControl(p.activeControl, control)) && PressFeedback(p, control) == None
  {
    var q := Press(Press(p, control), control);
    assert q.activeControl == if p.activeControl == Some(control) then p.activeControl else None;
    assert q.doorLocked == p.doorLocked && q.trunkOpen == p.trunkOpen;
    assert control != "Radio" ==> q.radioStation == p.radioStation;
  }

  /** Radio presses keep the station in 1..5 and leave every other part of the panel alone. */
  lemma RadioPressStaysInRange(p: DoorPanel)
    requires 1 <= p.radioStation <= 5
    ensures 1 <= Press(p, "Radio").radioStation <= 5
    ensures Press(p, "Radio").(radioStation := p.radioStation, activeControl := p.activeControl) == p
  {
  }

  class VehicleDoorPage {
    const a11y: Accessibility.AccessibilityService
    const sound: HapticSound.HapticSoundPlayer

    var activeState: Lifecycle
    var currentMode: VehicleMode
    var activeControl: Option<string>
    var doorType: DoorType
    var lastAction: Option<string>
    var showHapticFeedback: bool
    /** Hide-feedback timers scheduled and not yet run; none is ever cancelled. */
    var pendingClears: nat
    /** 100 is closed and 0 fully open. */
    var windowPosition: int
    var doorLocked: bool
    var radioStation: int
    /** In percent. */
    var ledIntensity: int
    var ledColor: string
    var proximityDetected: bool
    var trunkOpen: bool

    ghost predicate Valid()
      reads this, a11y, sound
    {
      a11y.Valid() && sound.Valid() && 1 <= radioStation <= 5
    }

    function Panel(): DoorPanel
      reads this
    {
      DoorPanel(activeState, currentMode, activeControl, doorType, windowPosition, doorLocked,
                radioStation, ledIntensity, ledColor, proximityDetected, trunkOpen)
    }

    /** Feedback for `action` was shown and its hide timer scheduled. */
    twostate predicate Toasted(action: Option<string>)
      reads this
    {
      lastAction == action && showHapticFeedback && pendingClears == old(pendingClears) + 1
    }

    /** The feedback toast was left as it was. */
    twostate predicate NotToasted()
      reads this
    {
      lastAction == old(lastAction) && showHapticFeedback == old(showHapticFeedback) && pendingClears == old(pendingClears)
    }

    /** The page gave the feedback `fb` (toast, cue and speech), or none at all. */
    twostate predicate Reacted(fb: Option<Feedback>)
      reads this, a11y, sound
    {
      match fb
      case Some(f) =>
        Toasted(Some(f.action)) && sound.Played([SoundType(f.intensity)])
        && a11y.QueueGrewBy(Accessibility.ActionSpeech(old(a11y.screenReaderEnabled), Some(f.action)))
      case None => NotToasted() && sound.Played([]) && a11y.QueueGrewBy([])
    }

    /** The press's state change together with its feedback. */
    twostate predicate Pressed(control: string)
      reads this, a11y, sound
    {
      Panel() == Press(old(Panel()), control) && Reacted(PressFeedback(old(Panel()), control))
    }

    constructor (a11y: Accessibility.AccessibilityService, sound: HapticSound.HapticSoundPlayer)
      requires a11y.Valid() && sound.Valid()
      ensures Valid() && this.a11y == a11y && this.sound == sound
      ensures Panel() == DoorPanel(Inactive, Parked, None, Driver, 100, true, 1, 0, "#3b82f6", false, false)
      ensures lastAction == None && !showHapticFeedback && pendingClears == 0
    {
      this.a11y := a11y;
      this.sound := sound;
      activeState := Inactive;
      currentMode := Parked;
      activeControl := None;
      doorType := Driver;
      lastAction := None;
      showHapticFeedback := false;
      pendingClears := 0;
      windowPosition := 100;
      doorLocked := true;
      radioStation := 1;
      ledIntensity := 0;
      ledColor := "#3b82f6";
      proximityDetected := false;
      trunkOpen := false;
    }

    /**
     * `triggerHapticFeedback`: shows the toast, plays tap, press or the default tone for
     * the intensity, speaks a truthy action while the reader is on, and schedules the hide.
     */
    method TriggerHapticFeedback(action: Option<string>, intensity: Intensity)
      requires Valid()
      modifies this, a11y, sound
      ensures Valid() && Panel() == old(Panel())
      ensures Toasted(action) && sound.Played([SoundType(intensity)])
      ensures a11y.QueueGrewBy(Accessibility.ActionSpeech(old(a11y.screenReaderEnabled), action))
    {
      lastAction := action;
      showHapticFeedback := true;
      sound.PlayHapticSound(SoundType(intensity));
      // The page also tests the action itself, a test `speakAction` repeats; one guard suffices.
      a11y.SpeakActionIfEnabled(action);
      pendingClears := pendingClears + 1;
    }

    /** The oldest hide timer fires. */
    method ClearFeedback()
      requires pendingClears > 0
      modifies this`showHapticFeedback, this`pendingClears
      ensures !showHapticFeedback && pendingClears == old(pendingClears) - 1
    {
      showHapticFeedback := false;
      pendingClears := pendingClears - 1;
    }

    /** `handleStateChange`: any state may be chosen; it sets the LED intensity and reacts. */
    method HandleStateChange(s: Lifecycle)
      requires Valid()
      modifies this, a11y, sound
      ensures Valid()
      ensures Panel() == old(Panel()).(activeState := s, ledIntensity := LedIntensityFor(s),
        proximityDetected := match s
          case Active => old(proximityDetected)
          case Proximity => true
          case Inactive => false)
      ensures s == Active ==> Reacted(Some(Feedback("Door controls activated", Strong)))
      ensures s == Proximity ==>
        NotToasted() && sound.Played(["proximity"])
        && a11y.QueueGrewBy(Accessibility.ActionSpeech(old(a11y.screenReaderEnabled), Some("Proximity detected near door")))
      ensures s == Inactive ==>
        NotToasted() && sound.Played([])
        && a11y.QueueGrewBy(Accessibility.ActionSpeech(old(a11y.screenReaderEnabled), Some("Door controls deactivated")))
    {
      match s
      case Active => Activate();
      case Proximity => DetectProximity();
      case Inactive => Deactivate();
    }

    method Activate()
      requires Valid()
      modifies this, a11y, sound
      ensures Valid() && Panel() == old(Panel()).(activeState := Active, ledIntensity := 100)
      ensures Reacted(Some(Feedback("Door controls activated", Strong)))
    {
      activeState := Active;
      ledIntensity := 100;
      TriggerHapticFeedback(Some("Door controls activated"), Strong);
    }

    method DetectProximity()
      requires Valid()
      modifies this, a11y, sound
      ensures Valid() && Panel() == old(Panel()).(activeState := Proximity, ledIntensity := 50, proximityDetected := true)
      ensures NotToasted() && sound.Played(["proximity"])
      ensures a11y.QueueGrewBy(Accessibility.ActionSpeech(old(a11y.screenReaderEnabled), Some("Proximity detected near door")))
    {
      sound.PlayHapticSound("proximity");
      a11y.SpeakActionIfEnabled(Some("Proximity detected near door"));
      activeState := Proximity;
      ledIntensity := 50;
      proximityDetected := true;
    }

    method Deactivate()
      requires Valid()
      modifies this, a11y, sound
      ensures Valid() && Panel() == old(Panel()).(activeState := Inactive, ledIntensity := 0, proximityDetected := false)
      ensures NotToasted() && sound.Played([])
      ensures a11y.QueueGrewBy(Accessibility.ActionSpeech(old(a11y.screenReaderEnabled), Some("Door controls deactivated")))
    {
      a11y.SpeakActionIfEnabled(Some("Door controls deactivated"));
      activeState := Inactive;
      ledIntensity := 0;
      proximityDetected := false;
    }

    /**
     * `handleControlPress`: toggles the active control and runs the control's action. It
     * checks neither availability nor the lifecycle state; the display does that.
     */
    method HandleControlPress(control: string)
      requires Valid()
      modifies this, a11y, sound
      ensures Valid() && Pressed(control)
    {
      if control == "Window" {
        PressActivating("Window", "Window control activated");
      } else if control == "Lock" {
        PressLock();
      } else if control == "Radio" {
        PressRadio();
      } else if control == "Trunk" {
        PressTrunk();
      } else if control == "LED" {
        PressActivating("LED", "LED control activated");
      } else {
        activeControl := ToggledControl(activeControl, control);
      }
    }

    /** Window and LED: feedback only when the control was not already the active one. */
    method PressActivating(control: string, message: string)
      requires Valid()
      requires (control == "Window" && message == "Window control activated") || (control == "LED" && message == "LED control activated")
      modifies this, a11y, sound
      ensures Valid() && Pressed(control)
    {
      var wasActive := activeControl == Some(control);
      ghost var fb := PressFeedback(Panel(), control);
      assert fb == if wasActive then None else Some(Feedback(message, Medium));
      activeControl := ToggledControl(activeControl, control);
      if !wasActive {
        TriggerHapticFeedback(Some(message), Medium);
      }
    }

    method PressLock()
      requires Valid()
      modifies this, a11y, sound
      ensures Valid() && Pressed("Lock")
    {
      var message := if doorLocked then "Door unlocked" else "Door locked";
      ghost var fb := PressFeedback(Panel(), "Lock");
      assert fb == Some(Feedback(message, Strong));
      activeControl := ToggledControl(activeControl, "Lock");
      doorLocked := !doorLocked;
      TriggerHapticFeedback(Some(message), Strong);
    }

    method PressRadio()
      requires Valid()
      modifies this, a11y, sound
      ensures Valid() && Pressed("Radio")
    {
      var newStation := NextStation(radioStation);
      var message := "Radio station " + IntToString(newStation);
      ghost var fb := PressFeedback(Panel(), "Radio");
      assert fb == Some(Feedback(message, Light));
      activeControl := ToggledControl(activeControl, "Radio");
      radioStation := newStation;
      TriggerHapticFeedback(Some(message), Light);
    }

    method PressTrunk()
      requires Valid()
      modifies this, a11y, sound
      ensures Valid() && Pressed("Trunk")
    {
      var message := if trunkOpen then "Trunk closed" else "Trunk opened";
      ghost var fb := PressFeedback(Panel(), "Trunk");
      assert fb == Some(Feedback(message, Strong));
      activeControl := ToggledControl(activeControl, "Trunk");
      trunkOpen := !trunkOpen;
      TriggerHapticFeedback(Some(message), Strong);
    }

    /** The window slider moved to `position`; the message gives how far the window is open. */
    method HandleWindowSliderChange(position: int)
      requires Valid()
      modifies this, a11y, sound
      ensures Valid() && Panel() == old(Panel()).(windowPosition := position)
      ensures Toasted(Some("Window " + IntToString(100 - position) + "% open")) && sound.Played([SoundType(Light)])
      ensures a11y.QueueGrewBy(Accessibility.ActionSpeech(old(a11y.screenReaderEnabled), Some("Window " + IntToString(100 - position) + "% open")))
    {
      windowPosition := position;
      TriggerHapticFeedback(Some("Window " + IntToString(100 - position) + "% open"), Light);
    }

    /** The LED slider moved to `pct` percent. */
    method HandleLedSliderChange(pct: int)
      requires Valid()
      modifies this, a11y, sound
      ensures Valid() && Panel() == old(Panel()).(ledIntensity := pct)
      ensures Toasted(Some("LED intensity " + IntToString(pct) + "%")) && sound.Played([SoundType(Light)])
      ensures a11y.QueueGrewBy(Accessibility.ActionSpeech(old(a11y.screenReaderEnabled), Some("LED intensity " + IntToString(pct) + "%")))
    {
      ledIntensity := pct;
      TriggerHapticFeedback(Some("LED intensity " + IntToString(pct) + "%"), Light);
    }

    method HandleLedColorChange(color: string)
      requires Valid()
      modifies this, a11y, sound
      ensures Valid() && Panel() == old(Panel()).(ledColor := color)
      ensures Toasted(Some("LED color changed")) && sound.Played([SoundType(Light)])
      ensures a11y.QueueGrewBy(Accessibility.ActionSpeech(old(a11y.screenReaderEnabled), Some("LED color changed")))
    {
      ledColor := color;
      TriggerHapticFeedback(Some("LED color changed"), Light);
    }

    /** `handleModeChange`: with the reader on, it also lists the controls of the current door. */
    method HandleModeChange(newMode: VehicleMode)
      requires Valid()
      modifies this, a11y, sound
      ensures Valid() && Panel() == old(Panel()).(mode := newMode)
      ensures Toasted(Some(ModeName(newMode) + " mode activated")) && sound.Played([SoundType(Medium)])
      ensures a11y.QueueGrewBy(
        Accessibility.ActionSpeech(old(a11y.screenReaderEnabled), Some(ModeName(newMode) + " mode activated"))
        + Accessibility.ActionSpeech(old(a11y.screenReaderEnabled),
            Some("Available controls: " + Join(Controls(newMode, old(doorType)), ", "))))
    {
      var announcement := Some(ModeName(newMode) + " mode activated");
      var listing := Some("Available controls: " + Join(Controls(newMode, doorType), ", "));
      ghost var q0, e0 := a11y.queue, a11y.enqueued;
      ghost var x := Accessibility.ActionSpeech(a11y.screenReaderEnabled, announcement);
      ghost var y := Accessibility.ActionSpeech(a11y.screenReaderEnabled, listing);
      currentMode := newMode;
      TriggerHapticFeedback(announcement, Medium);
      a11y.SpeakActionIfEnabled(listing);
      assert q0 + x + y == q0 + (x + y) && e0 + x + y == e0 + (x + y);
    }

    /** `handleDoorTypeChange`: with the reader on, it also lists the new door's controls. */
    method HandleDoorTypeChange(newDoor: DoorType)
      requires Valid()
      modifies this, a11y, sound
      ensures Valid() && Panel() == old(Panel()).(doorType := newDoor)
      ensures Toasted(Some(DoorName(newDoor) + " door selected")) && sound.Played([SoundType(Medium)])
      ensures a11y.QueueGrewBy(
        Accessibility.ActionSpeech(old(a11y.screenReaderEnabled), Some(DoorName(newDoor) + " door selected"))
        + Accessibility.ActionSpeech(old(a11y.screenReaderEnabled),
            Some(DoorName(newDoor) + " door - Available controls: " + Join(Controls(old(currentMode), newDoor), ", "))))
    {
      var announcement := Some(DoorName(newDoor) + " door selected");
      var listing := Some(DoorName(newDoor) + " door - Available controls: " + Join(Controls(currentMode, newDoor), ", "));
      ghost var q0, e0 := a11y.queue, a11y.enqueued;
      ghost var x := Accessibility.ActionSpeech(a11y.screenReaderEnabled, announcement);
      ghost var y := Accessibility.ActionSpeech(a11y.screenReaderEnabled, listing);
      doorType := newDoor;
      TriggerHapticFeedback(announcement, Medium);
      a11y.SpeakActionIfEnabled(listing);
      assert q0 + x + y == q0 + (x + y) && e0 + x + y == e0 + (x + y);
    }
  }

  /**
   * Hide timers are never cancelled: feedback given 1000 ms after an earlier one is hidden
   * when the earlier timer fires, 500 ms later, while the later timer is still pending.
   */
  method StaleTimerHidesLaterFeedback() returns (shown: bool, pending: nat, action: Option<string>)
    ensures !shown && pending == 1 && action == Some("Door locked")
  {
    var a11y := new Accessibility.AccessibilityService();
    var sound := new HapticSound.HapticSoundPlayer();
    var page := new VehicleDoorPage(a11y, sound);
    page.HandleControlPress("Lock");
    page.HandleControlPress("Lock");
    page.ClearFeedback();
    shown, pending, action := page.showHapticFeedback, page.pendingClears, page.lastAction;
  }
}
