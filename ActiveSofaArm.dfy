/**
 * The active sofa-arm panel: media, volume and smart-home buttons. Each click writes the
 * page's state through its setters and then gives the feedback for the click's label.
 */
module ActiveSofaArm {
  import opened Common
  import opened SofaArm
  import Accessibility
  import HapticSound

  /** Volume up: five points, capped at 100. */
  function VolumeAfterUp(volume: int): (v: int)
    ensures 0 <= volume <= 100 ==> 0 <= v <= 100
    ensures 0 <= volume <= 100 ==> v >= volume && (v == volume <==> volume == 100)
  {
    if volume + 5 <= 100 then volume + 5 else 100
  }

  /** Volume down: five points, floored at 0. */
  function VolumeAfterDown(volume: int): (v: int)
    ensures 0 <= volume <= 100 ==> 0 <= v <= 100
    ensures 0 <= volume <= 100 ==> v <= volume && (v == volume <==> volume == 0)
  {
    if volume - 5 >= 0 then volume - 5 else 0
  }

  /** Up then down restores any volume up to 95, and down then up any from 5. */
  lemma VolumeStepsUndo(volume: int)
    requires 0 <= volume <= 100
    ensures volume <= 95 ==> VolumeAfterDown(VolumeAfterUp(volume)) == volume
    ensures volume >= 5 ==> VolumeAfterUp(VolumeAfterDown(volume)) == volume
    ensures VolumeAfterDown(VolumeAfterUp(100)) == 95
  {
  }

  /** One device with the lights toggled: only an entry whose id is "lights" flips. */
  function ToggledDevice(d: Device): Device {
    if d.id == "lights" then d.(active := !d.active) else d
  }

  /** The device list after the lights switch: same length, order, ids and names. */
  function ToggleLights(devices: seq<Device>): (toggled: seq<Device>)
    ensures |toggled| == |devices|
    ensures forall i :: 0 <= i < |devices| ==>
      && toggled[i].id == devices[i].id && toggled[i].name == devices[i].name
      && (toggled[i].active != devices[i].active <==> devices[i].id == "lights")
  {
    if devices == [] then [] else [ToggledDevice(devices[0])] + ToggleLights(devices[1..])
  }

  /** Switching the lights twice restores the device list. */
  lemma {:induction false} ToggleLightsTwice(devices: seq<Device>)
    ensures ToggleLights(ToggleLights(devices)) == devices
    decreases |devices|
  {
    if devices != [] {
      ToggleLightsTwice(devices[1..]);
      assert ToggleLights(devices)[1..] == ToggleLights(devices[1..]);
    }
  }

  /** `find(d => d.id === 'lights')?.active`: the first lights entry's state, if any. */
  function LightsActive(devices: seq<Device>): (state: Option<bool>)
    ensures state.None? <==> forall i :: 0 <= i < |devices| ==> devices[i].id != "lights"
    ensures state.Some? ==>
      exists i :: 0 <= i < |devices| && devices[i].id == "lights" && state.value == devices[i].active
        && forall j :: 0 <= j < i ==> devices[j].id != "lights"
  {
    if devices == [] then None
    else if devices[0].id == "lights" then Some(devices[0].active)
    else LightsActive(devices[1..])
  }

  /** The feedback label, read from the new list: a missing lights entry reads as off. */
  function LightsLabel(devices: seq<Device>): (shown: string)
    ensures shown == "Lights on" || shown == "Lights off"
    ensures shown == "Lights on" <==> LightsActive(devices) == Some(true)
  {
    if LightsActive(devices) == Some(true) then "Lights on" else "Lights off"
  }

  /** After the switch the lights read as the opposite of before, and a list without lights is left alone. */
  lemma {:induction false} ToggleLightsFlipsState(devices: seq<Device>)
    ensures LightsActive(devices).Some? ==>
      LightsActive(ToggleLights(devices)) == Some(!LightsActive(devices).value)
    ensures LightsActive(devices).Some? ==>
      (LightsLabel(ToggleLights(devices)) == "Lights on" <==> !LightsActive(devices).value)
    ensures LightsActive(devices).None? ==>
      ToggleLights(devices) == devices && LightsLabel(ToggleLights(devices)) == "Lights off"
    decreases |devices|
  {
    if devices != [] {
      ToggleLightsFlipsState(devices[1..]);
      assert ToggleLights(devices)[1..] == ToggleLights(devices[1..]);
    }
  }

  /** On the initial device list, the first switch turns the lights on. */
  lemma FirstLightsSwitchTurnsOn()
    ensures LightsLabel(ToggleLights(InitialDevices)) == "Lights on"
    ensures ToggleLights(ToggleLights(InitialDevices)) == InitialDevices
  {
    ToggleLightsFlipsState(InitialDevices);
    ToggleLightsTwice(InitialDevices);
  }

  /** The buttons that only give feedback. */
  datatype FeedbackButton = PreviousTrack | NextTrack | Temperature | HomeMenu

  function FeedbackLabel(b: FeedbackButton): (action: string)
    ensures HapticSound.CueFor(action) != HapticSound.DefaultCue
  {
    match b
    case PreviousTrack => "Previous track"
    case NextTrack => "Next track"
    case Temperature => "Temperature control"
    case HomeMenu => "Home menu"
  }

  /** Every label the panel's buttons and activation use has its own cue. */
  lemma PanelLabelsHaveOwnCues(b: FeedbackButton, playing: bool, on: bool)
    ensures HapticSound.CueFor(FeedbackLabel(b)) != HapticSound.DefaultCue
    ensures HapticSound.CueFor(if playing then "Paused" else "Playing") != HapticSound.DefaultCue
    ensures HapticSound.CueFor(if on then "Lights on" else "Lights off") != HapticSound.DefaultCue
    ensures HapticSound.CueFor(if on then "Bluetooth off" else "Bluetooth on") != HapticSound.DefaultCue
    ensures HapticSound.CueFor("Volume up") != HapticSound.DefaultCue
    ensures HapticSound.CueFor("Volume down") != HapticSound.DefaultCue
    ensures HapticSound.CueFor("Panel activated") != HapticSound.DefaultCue
  {
  }

  /** The volume-up button. */
  method VolumeUp(page: SofaArmPage)
    requires page.Valid()
    modifies page, page.a11y, page.sound
    ensures page.Valid() && page.Arm() == old(page.Arm()).(currentVolume := VolumeAfterUp(old(page.currentVolume)))
    ensures page.Reacted("Volume up")
  {
    page.currentVolume := if page.currentVolume + 5 <= 100 then page.currentVolume + 5 else 100;
    page.TriggerHapticFeedback(Some("Volume up"));
  }

  /** The volume-down button. */
  method VolumeDown(page: SofaArmPage)
    requires page.Valid()
    modifies page, page.a11y, page.sound
    ensures page.Valid() && page.Arm() == old(page.Arm()).(currentVolume := VolumeAfterDown(old(page.currentVolume)))
    ensures page.Reacted("Volume down")
  {
    page.currentVolume := if page.currentVolume - 5 >= 0 then page.currentVolume - 5 else 0;
    page.TriggerHapticFeedback(Some("Volume down"));
  }

  /** The play/pause button: the label names the new state, read from the old flag. */
  method TogglePlay(page: SofaArmPage)
    requires page.Valid()
    modifies page, page.a11y, page.sound
    ensures page.Valid() && page.Arm() == old(page.Arm()).(isPlaying := !old(page.isPlaying))
    ensures page.Reacted(if page.isPlaying then "Playing" else "Paused")
  {
    var wasPlaying := page.isPlaying;
    page.isPlaying := !wasPlaying;
    page.TriggerHapticFeedback(Some(if wasPlaying then "Paused" else "Playing"));
  }

  /** The lights switch. */
  method SwitchLights(page: SofaArmPage)
    requires page.Valid()
    modifies page, page.a11y, page.sound
    ensures page.Valid() && page.Arm() == old(page.Arm()).(connectedDevices := ToggleLights(old(page.connectedDevices)))
    ensures page.Reacted(LightsLabel(page.connectedDevices))
  {
    var newDevices := ToggleLights(page.connectedDevices);
    page.connectedDevices := newDevices;
    page.TriggerHapticFeedback(Some(LightsLabel(newDevices)));
  }

  /** The Bluetooth button: "Bluetooth off" exactly when it was connected. */
  method ToggleBluetooth(page: SofaArmPage)
    requires page.Valid()
    modifies page, page.a11y, page.sound
    ensures page.Valid() && page.Arm() == old(page.Arm()).(bluetoothConnected := !old(page.bluetoothConnected))
    ensures page.Reacted(if old(page.bluetoothConnected) then "Bluetooth off" else "Bluetooth on")
  {
    var wasConnected := page.bluetoothConnected;
    page.bluetoothConnected := !wasConnected;
    page.TriggerHapticFeedback(Some(if wasConnected then "Bluetooth off" else "Bluetooth on"));
  }

  /** Previous, next, temperature and home change nothing but give their feedback. */
  method PressFeedbackButton(page: SofaArmPage, b: FeedbackButton)
    requires page.Valid()
    modifies page, page.a11y, page.sound
    ensures page.Valid() && page.Arm() == old(page.Arm())
    ensures page.Reacted(FeedbackLabel(b))
  {
    page.TriggerHapticFeedback(Some(FeedbackLabel(b)));
  }

  /** The toast renders whenever feedback is on, showing the last action. */
  function ToastText(showHapticFeedback: bool, lastAction: Option<string>): (text: Option<string>)
    ensures text.Some? <==> showHapticFeedback
    ensures text.Some? && lastAction.Some? ==> text.value == lastAction.value
  {
    if showHapticFeedback then Some(if lastAction.Some? then lastAction.value else "") else None
  }

  /**
   * From a fresh page, pressing play twice plays the "Playing" and then the "Paused" cue and
   * leaves the media paused with "Paused" on the toast.
   */
  method PlayPauseFromFresh() returns (playing: bool, toast: Option<string>, cues: seq<seq<HapticSound.Step>>)
    ensures !playing && toast == Some("Paused")
    ensures cues == [HapticSound.CueFor("Playing"), HapticSound.CueFor("Paused")]
  {
    var a11y := new Accessibility.AccessibilityService();
    var sound := new HapticSound.HapticSoundPlayer();
    var page := new SofaArmPage(a11y, sound);
    TogglePlay(page);
    TogglePlay(page);
    CuesOfTwo("Playing", "Paused");
    playing := page.isPlaying;
    toast := ToastText(page.showHapticFeedback, page.lastAction);
    cues := sound.played;
  }

  /** The cues of two labels played one after the other. */
  lemma CuesOfTwo(first: string, second: string)
    ensures HapticSound.Cues([first]) + HapticSound.Cues([second]) == [HapticSound.CueFor(first), HapticSound.CueFor(second)]
  {
    assert HapticSound.Cues([first]) == [HapticSound.CueFor(first)];
    assert HapticSound.Cues([second]) == [HapticSound.CueFor(second)];
  }
}
