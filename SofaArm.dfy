/**
 * The smart sofa-arm page: a media, volume and smart-home panel in the arm of a sofa that
 * wakes on proximity, gives sound and speech feedback for every action, and adapts its
 * brightness to the ambient light.
 */
module SofaArm {
  import opened Common
  import Accessibility
  import HapticSound

  /** A device on the smart-home bar. */
  datatype Device = Device(id: string, name: string, active: bool)

  const InitialDevices: seq<Device> := [
    Device("tv", "Living Room TV", true),
    Device("soundbar", "Soundbar", true),
    Device("lights", "Smart Lights", false)
  ]

  /** The ambient light level the simulated sensor reports. */
  datatype AmbientLevel = Low | Normal | High

  /** The panel brightness, in percent, for each ambient light level. */
  function BrightnessFor(level: AmbientLevel): (brightness: int)
    ensures brightness == 40 <==> level == Low
    ensures brightness == 70 <==> level == Normal
    ensures brightness == 100 <==> level == High
  {
    match level
    case Low => 40
    case Normal => 70
    case High => 100
  }

  /** The initial brightness, 80, is one no ambient reading ever produces again. */
  lemma InitialBrightnessNotReproduced(level: AmbientLevel)
    ensures BrightnessFor(level) != 80
    ensures BrightnessFor(level) in {40, 70, 100}
  {
  }

  /** The three views the panel can show. */
  datatype SofaView = InactiveView | ProximityView | ActiveView

  /** `renderCurrentStateView`: a state string it does not know shows the inactive view. */
  function RenderedView(state: string): (view: SofaView)
    ensures view == ActiveView <==> state == LifecycleName(Active)
    ensures view == ProximityView <==> state == LifecycleName(Proximity)
    ensures ParseLifecycle(state) == None ==> view == InactiveView
  {
    if state == "proximity" then ProximityView
    else if state == "active" then ActiveView
    else InactiveView
  }

  /** The page's panel state, without the feedback toast. */
  datatype ArmState = ArmState(
    activeState: string,
    isPlaying: bool,
    currentVolume: int,
    connectedDevices: seq<Device>,
    bluetoothConnected: bool,
    currentBrightness: int)

  class SofaArmPage {
    const a11y: Accessibility.AccessibilityService
    const sound: HapticSound.HapticSoundPlayer

    var activeState: string
    var isPlaying: bool
    var currentVolume: int
    var lastAction: Option<string>
    var connectedDevices: seq<Device>
    var showHapticFeedback: bool
    /** Hide-feedback timers scheduled and not yet run; none is ever cancelled. */
    var pendingClears: nat
    var bluetoothConnected: bool
    var currentBrightness: int
    var ambientLightLevel: AmbientLevel

    /** The volume stays a percentage and the brightness is the initial one or a sensor one. */
    ghost predicate Valid()
      reads this, a11y, sound
    {
      && a11y.Valid() && sound.Valid()
      && 0 <= currentVolume <= 100
      && currentBrightness in {40, 70, 80, 100}
    }

    function Arm(): ArmState
      reads this
    {
      ArmState(activeState, isPlaying, currentVolume, connectedDevices, bluetoothConnected, currentBrightness)
    }

    twostate predicate PanelKept()
      reads this
    {
      && isPlaying == old(isPlaying) && currentVolume == old(currentVolume)
      && connectedDevices == old(connectedDevices) && bluetoothConnected == old(bluetoothConnected)
      && currentBrightness == old(currentBrightness)
    }

    twostate predicate Toasted(action: Option<string>)
      reads this
    {
      lastAction == action && showHapticFeedback && pendingClears == old(pendingClears) + 1
    }

    twostate predicate NotToasted()
      reads this
    {
      lastAction == old(lastAction) && showHapticFeedback == old(showHapticFeedback) && pendingClears == old(pendingClears)
    }

    /** The full feedback for `action`: toast, its own cue, and speech when the reader is on. */
    twostate predicate Reacted(action: string)
      reads this, a11y, sound
    {
      Toasted(Some(action)) && sound.Played([action])
      && a11y.QueueGrewBy(Accessibility.ActionSpeech(old(a11y.screenReaderEnabled), Some(action)))
    }

    constructor (a11y: Accessibility.AccessibilityService, sound: HapticSound.HapticSoundPlayer)
      requires a11y.Valid() && sound.Valid()
      ensures Valid() && this.a11y == a11y && this.sound == sound
      ensures Arm() == ArmState("inactive", false, 65, InitialDevices, true, 80)
      ensures lastAction == None && !showHapticFeedback && pendingClears == 0 && ambientLightLevel == Normal
    {
      this.a11y := a11y;
      this.sound := sound;
      activeState := "inactive";
      isPlaying := false;
      currentVolume := 65;
      lastAction := None;
      connectedDevices := InitialDevices;
      showHapticFeedback := false;
      pendingClears := 0;
      bluetoothConnected := true;
      currentBrightness := 80;
      ambientLightLevel := Normal;
    }

    /**
     * `triggerHapticFeedback`: shows the toast, plays the action's cue ("default" for no
     * action) and always hands the action to `speakAction`, which speaks only with the
     * reader on.
     */
    method TriggerHapticFeedback(action: Option<string>)
      requires Valid()
      modifies this, a11y, sound
      ensures Valid() && Arm() == old(Arm()) && ambientLightLevel == old(ambientLightLevel)
      ensures Toasted(action)
      ensures sound.Played([if action.Some? then action.value else "default"])
      ensures a11y.QueueGrewBy(Accessibility.ActionSpeech(old(a11y.screenReaderEnabled), action))
    {
      lastAction := action;
      showHapticFeedback := true;
      sound.PlayHapticSound(if action.Some? then action.value else "default");
      a11y.SpeakAction(action);
      pendingClears := pendingClears + 1;
    }

    /** The oldest hide timer fires. */
    method ClearFeedback()
      requires pendingClears > 0
      modifies this`showHapticFeedback, this`pendingClears
      ensures !showHapticFeedback && pendingClears == old(pendingClears) - 1
    {
      showHapticFeedback := false;
      pendingClears := pendingClears - 1;
    }

    /**
     * `handleStateChange`: the state is always stored; "active" gives the full feedback,
     * "proximity" a cue and speech, "inactive" speech only, and any other string nothing.
     */
    method HandleStateChange(newState: string)
      requires Valid()
      modifies this, a11y, sound
      ensures Valid() && activeState == newState && PanelKept()
      ensures newState == "active" ==> Reacted("Panel activated")
      ensures newState == "proximity" ==>
        NotToasted() && sound.Played(["Proximity"])
        && a11y.QueueGrewBy(Accessibility.ActionSpeech(old(a11y.screenReaderEnabled), Some("Hand detected, showing basic controls")))
      ensures newState == "inactive" ==>
        NotToasted() && sound.Played([])
        && a11y.QueueGrewBy(Accessibility.ActionSpeech(old(a11y.screenReaderEnabled), Some("Panel deactivated")))
      ensures ParseLifecycle(newState) == None ==> NotToasted() && sound.Played([]) && a11y.QueueGrewBy([])
    {
      if newState == "active" {
        Activate();
      } else if newState == "proximity" {
        Approach();
      } else if newState == "inactive" {
        Deactivate();
      } else {
        activeState := newState;
      }
    }

    /** The active branch: the full feedback for "Panel activated". */
    method Activate()
      requires Valid()
      modifies this, a11y, sound
      ensures Valid() && activeState == "active" && PanelKept() && Reacted("Panel activated")
    {
      TriggerHapticFeedback(Some("Panel activated"));
      activeState := "active";
    }

    /** The proximity branch: the "Proximity" cue, and speech only with the reader on. */
    method Approach()
      requires Valid()
      modifies this, a11y, sound
      ensures Valid() && activeState == "proximity" && PanelKept() && NotToasted() && sound.Played(["Proximity"])
      ensures a11y.QueueGrewBy(Accessibility.ActionSpeech(old(a11y.screenReaderEnabled), Some("Hand detected, showing basic controls")))
    {
      sound.PlayHapticSound("Proximity");
      a11y.SpeakActionIfEnabled(Some("Hand detected, showing basic controls"));
      activeState := "proximity";
    }

    /** The inactive branch: speech only with the reader on, and no cue. */
    method Deactivate()
      requires Valid()
      modifies this, a11y, sound
      ensures Valid() && activeState == "inactive" && PanelKept() && NotToasted() && sound.Played([])
      ensures a11y.QueueGrewBy(Accessibility.ActionSpeech(old(a11y.screenReaderEnabled), Some("Panel deactivated")))
    {
      a11y.SpeakActionIfEnabled(Some("Panel deactivated"));
      activeState := "inactive";
    }

    /** One tick of the ambient-light interval, with the sensor's reading as a parameter. */
    method AmbientLightChange(level: AmbientLevel)
      requires Valid()
      modifies this`ambientLightLevel, this`currentBrightness
      ensures Valid() && ambientLightLevel == level
      ensures Arm() == old(Arm()).(currentBrightness := BrightnessFor(level))
    {
      ambientLightLevel := level;
      if level == Low {
        currentBrightness := 40;
      } else if level == Normal {
        currentBrightness := 70;
      } else {
        currentBrightness := 100;
      }
    }
  }
}
