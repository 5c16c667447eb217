# Haptic concept pages: a verified model

The site demonstrates three "smart surface" concepts: a vehicle door panel, a steering wheel
with pressure-sensitive buttons, and the control panel in a sofa arm. Each page moves through
a lifecycle (inactive, proximity, active), gives feedback for every action and talks to two
shared providers:

- the **accessibility provider** holds a screen-reader switch, a hover-announcement switch and
  a speech queue. The queue is drained one utterance at a time into the browser's speech
  synthesiser. Hover announcements are spoken directly and never enter the queue.
- the **haptic sound provider** maps an action label to a short cue of tones. It starts the
  audio backend once, on first use.

This project models those providers and pages as Dafny classes. Their methods are the event
handlers, and pure functions model the lookup tables. Then it proves what the handlers promise.

## Layout

| file | module | models |
|---|---|---|
| `Common.dfy` | `Common` | nullable values and JavaScript truthiness, the lifecycle names, the haptic intensities and their sound labels, template-literal number printing, `join` |
| `Accessibility.dfy` | `Accessibility` | the accessibility provider: switches, speech queue, descriptive phrases, hover announcements |
| `HapticSound.dfy` | `HapticSound` | the cue table and the player with its one-shot `isReady` flag |
| `VehicleDoor.dfy` | `VehicleDoor` | the door page: control table, LED intensities, handlers |
| `VehicleDoorDisplay.dfy` | `VehicleDoorDisplay` | the door panel display: click gating, colour picker, sliders, status text |
| `SteeringWheel.dfy` | `SteeringWheel` | the steering-wheel page: button table, pressure tiers, handlers |
| `WheelInteractionDemo.dfy` | `WheelInteractionDemo` | the interaction demo: simulated pressures, card presses, caption, toast |
| `WheelModel.dfy` | `WheelModel` | the 3D wheel: tactile-button pressure ramp and press reports, button layout, grip hover, scroll rules, visibility rules |
| `WheelView.dfy` | `WheelView` | the error boundary around the 3D wheel |
| `SofaArm.dfy` | `SofaArm` | the sofa-arm page: lifecycle handler, feedback, ambient light and brightness, view dispatch |
| `ActiveSofaArm.dfy` | `ActiveSofaArm` | the active panel's buttons: volume, play/pause, lights, Bluetooth, feedback-only buttons |

## How the source maps to the model

- **Providers and pages are objects.** A page holds its two providers as `const a11y` and
  `const sound`. Each handler `modifies this, a11y, sound` and states the page's whole new state
  through a snapshot function (`Panel()`, `Wheel()`, `Arm()`). Its feedback is stated through
  two-state predicates:
  - `Toasted`: the toast shows the action and one more hide timer is pending;
  - `sound.Played(labels)`: exactly these cues were scheduled;
  - `a11y.QueueGrewBy(texts)`: exactly these texts were appended to the speech queue and
    nothing else in the provider changed.
- **Render-time values.** A React handler reads the state of the render that created it. So
  every "before" value in a contract is `old(...)`. For example, the lock message comes from
  the lock state before the press, and `toggleScreenReader`'s announcement passes through
  `speakText` while the switch still reads off, so it is never queued.
- **Order of effects inside a handler.** React applies state updates together once the
  handler returns. So the model may run a handler's sound and speech calls before or after its
  state writes, and the final state is the same either way.
- **Timers** are explicit methods: `ClearFeedback`, `ResetLastHovered`, `ClearScrollDirection`.
  Each page counts the timers it has scheduled and not yet run. The source never cancels a
  pending hide timer. `VehicleDoor.StaleTimerHidesLaterFeedback` shows the result: an earlier
  timer hides later feedback.
- **Queue discipline.** `AccessibilityService.Valid()` carries a ghost history: everything
  removed from the queue, followed by what is still queued, is everything ever appended.
  - `RunQueueEvents` runs announcements, effect runs and utterance events in any order. It
    returns a ghost snapshot of the queue at each issue. Every queued text handed to the
    synthesiser is the head of that snapshot. The snapshot is the appended texts that follow
    the ones removed so far. The number removed never decreases from one issue to the next,
    so texts are issued in the order they were appended. Out-of-step events can still issue
    a text twice (`DrainBeforeStartRepeatsHead`) or remove one that was never issued.
  - `SpeakInOrder` covers the schedule where every text is announced first and each effect
    run is followed by its utterance's start and then its end or error. Under that
    schedule, each non-empty text is spoken exactly once, in order.
- **Speech guards.** The door and wheel pages call `speakAction` only while the reader is on
  (`AccessibilityService.SpeakActionIfEnabled`). The sofa page always calls it, and
  `speakAction` checks the switch itself. The door page also tests the action before calling.
  That test is the same one `speakAction` makes, so the model keeps one of the two.
- **Integers.** The door's LED intensity, a fraction in the source, is an integer
  percentage. The sofa page's ambient level `'medium'` is `Normal` in the
  model, because `Medium` already names a haptic intensity.

## Where the code disagrees with itself

The model follows the executable code in each case.

- **Activation threshold.** The interaction demo labels its strongest button "Intentional
  Press (60+)", and its caption says "Button activated" from pressure 60 on
  (`InteractionDemo.tsx`, lines 95 and 106). The steering page's `handlePressure` activates
  only above 60 (`SteeringWheelConcept/index.tsx`, line 73; `Tier`, `PressureTiers`).
  `CaptionAndHandlerDisagreeOnlyAt60` proves that 60 is the only value where the two
  disagree.
- **Fallback wheel.** `SteeringWheel3D.tsx` declares a "simplified fallback steering wheel
  (only shown on error)" at line 166 and hands it to the error boundary. The boundary's
  `render` (lines 151-163) ignores that prop and shows only a placeholder message
  (`WheelView.ShownLatches`).

Two more behaviours of the code, stated plainly:

- **Hide timers.** Every feedback event schedules a new 1.5 s hide timer, and no handler
  cancels an earlier one (`VehicleDoor.StaleTimerHidesLaterFeedback`).
- **Sound labels.** The door and wheel pages pass the sound provider `tap`, `press` or
  `default` for the feedback's intensity, not the action's own label. None of the three is
  in the provider's cue table, so all three play the default tone
  (`HapticSound.PageLabelsUseDefaultCue`).

## Behaviour the proofs bring out

- The queue effect does not set `isSpeaking`; the utterance's `onstart` does. An effect run
  before `onstart` hands the queue's head to the synthesiser a second time
  (`DrainBeforeStartRepeatsHead`).
- A tactile button reports every change to a positive pressure, on the way down as well. So a
  held and released button calls the pressure handler with 10, 20, ..., 100, then 80, 60, 40
  and 20 (`PressAndRelease`).
  - The handler treats 10 and 20 as accidental touches and selects the button from 70 on
    (`PressFromRestSelectsAtSeventhReport`).
  - The press effect also re-runs when the page hands the button a new handler
    (`OnPressReplaced`). The page makes a new one when the selected button or the reader
    switch changes. It also makes one whenever either provider re-renders, because the
    provider functions it calls are created anew on each render. A queue change, the
    speaking flag or the sound backend's first start can therefore re-report a held
    pressure.
- Some source paths are never reached, because nothing the site renders calls them:
  - `handleHandPosition` is reached only through the grip areas of the fallback wheel, which
    is never rendered. So both hands stay off and the active wheel always shows its safety
    warning. `GripHover` and `HandleHandPosition` are modelled as written.
  - The wheel's contact-list scrolling needs `showContactsList`, which no caller passes, so
    `ScrollArea` never emits. `WheelScroll` and `PointerScroll` state the rules for when it is.
- The door display re-syncs its colour picker to "LED is the active control" whenever that
  changes. An accepted click keeps the picker in step (`HandleControlClick`).

## Model

| member | source | states |
|---|---|---|
| Common.ParseLifecycle | src/pages/SteeringWheelConcept/index.tsx:47-61 | a string names a lifecycle state exactly when it is one of the three names the handlers compare against, and reading it back gives that state |
| Common.SoundType | src/pages/VehicleDoor/index.tsx:79 | light intensity plays `tap`, strong plays `press` and medium plays `default`, each exactly then |
| Common.IntToString | src/pages/VehicleDoor/index.tsx:131 | a number prints as digits whose decimal value is the number, with a leading '-' exactly when it is negative |
| Common.IntToStringInjective | src/pages/VehicleDoor/index.tsx:131 | two different numbers never print alike, so a message names its number unambiguously |
| Common.Join | src/pages/VehicleDoor/index.tsx:171 | joining no items gives the empty string and one item gives that item |
| Common.JoinAppend | src/pages/VehicleDoor/index.tsx:171 | joining one more item appends the separator and the item to the earlier join |
| Accessibility.DescriptiveText | src/context/accessibilityContext/AccessibilityProvider.tsx:80-111 | each of the 13 listed labels is reworded to its fixed phrase, every other label passes through unchanged, and only the empty label gives the empty phrase |
| Accessibility.ActionSpeech | src/context/accessibilityContext/AccessibilityProvider.tsx:114-118 | `speakAction` queues at most one text: one exactly when the reader is on and the action is truthy, and then the action's non-empty descriptive phrase |
| Accessibility.NonEmptyTexts | src/context/accessibilityContext/AccessibilityProvider.tsx:73-77 | the texts `speakText` accepts from a list are no more than the list and are all non-empty |
| Accessibility.AccessibilityService.constructor | src/context/accessibilityContext/AccessibilityProvider.tsx:7-12 | reader off, hover announcements on, no synthesiser yet, not speaking, empty queue, nothing hovered |
| Accessibility.AccessibilityService.Mount | src/context/accessibilityContext/AccessibilityProvider.tsx:15-19 | the synthesiser becomes available exactly when the browser has one |
| Accessibility.AccessibilityService.ReadyToDrain | src/context/accessibilityContext/AccessibilityProvider.tsx:23 | the effect may speak exactly with the reader on, a synthesiser, a non-empty queue and nothing speaking, and then the head is a non-empty text |
| Accessibility.AccessibilityService.Drain | src/context/accessibilityContext/AccessibilityProvider.tsx:22-59 | the effect speaks exactly when the reader is on, a synthesiser exists, the queue is non-empty and nothing is speaking; then it speaks the head and leaves the queue and the speaking flag alone |
| Accessibility.AccessibilityService.OnUtteranceStart | src/context/accessibilityContext/AccessibilityProvider.tsx:45 | the start event sets the speaking flag |
| Accessibility.AccessibilityService.OnUtteranceEnd | src/context/accessibilityContext/AccessibilityProvider.tsx:46-49 | the end event clears the speaking flag and removes exactly the head of the queue, keeping the queue first-in first-out |
| Accessibility.AccessibilityService.OnUtteranceError | src/context/accessibilityContext/AccessibilityProvider.tsx:50-54 | an error is handled exactly like the end event, so the failed text is dropped and never retried |
| Accessibility.AccessibilityService.OnHoverUtteranceEnd | src/context/accessibilityContext/AccessibilityProvider.tsx:137-139 | a hover utterance's end clears the speaking flag only |
| Accessibility.AccessibilityService.SpeakText | src/context/accessibilityContext/AccessibilityProvider.tsx:73-77 | the text is appended at the tail exactly when the reader is on and the text is non-empty; nothing else changes |
| Accessibility.AccessibilityService.SpeakAction | src/context/accessibilityContext/AccessibilityProvider.tsx:114-118 | the queue grows by exactly the action's speech and nothing else changes |
| Accessibility.AccessibilityService.SpeakActionIfEnabled | src/pages/SteeringWheelConcept/index.tsx:38-40 | the pages' reader-on guard around `speakAction` adds nothing: the queue grows by exactly the action's speech |
| Accessibility.AccessibilityService.HoverGate | src/context/accessibilityContext/AccessibilityProvider.tsx:121-124 | a hover is announced only with both switches on, and exactly for a non-empty description other than the last one |
| Accessibility.AccessibilityService.AnnounceHover | src/context/accessibilityContext/AccessibilityProvider.tsx:121-149 | past the gate (both switches on, a description, not the last one) it remembers the description, schedules one reset and speaks directly only when nothing is speaking and a synthesiser exists; the queue never changes |
| Accessibility.AccessibilityService.ResetLastHovered | src/context/accessibilityContext/AccessibilityProvider.tsx:144-146 | the reset timer forgets the last hovered description |
| Accessibility.AccessibilityService.ToggleScreenReader | src/context/accessibilityContext/AccessibilityProvider.tsx:62-70 | the switch flips and the enable message is never queued, because `speakText` still sees the switch off |
| Accessibility.AccessibilityService.ToggleHoverAnnouncements | src/context/accessibilityContext/AccessibilityProvider.tsx:152-159 | the hover switch flips and, exactly when the reader is on, the message naming the new setting is queued |
| Accessibility.SpeakInOrder | src/context/accessibilityContext/AccessibilityProvider.tsx:22-77 | under the schedule it runs (everything announced, then effect, start and end or error per text), the non-empty texts are spoken once each, in announcement order, whichever utterances fail |
| Accessibility.QueueStep | src/context/accessibilityContext/AccessibilityProvider.tsx:22-77 | any single event only extends the queue history, and a text is issued only by the effect, as the head of the unchanged queue |
| Accessibility.RunQueueEvents | src/context/accessibilityContext/AccessibilityProvider.tsx:22-77 | under any order of announcements, effect runs and utterance events, each issued text is the head of the queue at that moment; that queue is the appended texts from the number already removed on; these positions never decrease, so texts are issued in append order; the new utterances are exactly the issued texts |
| Accessibility.AnnounceAll | src/context/accessibilityContext/AccessibilityProvider.tsx:73-77 | announcing texts one by one queues exactly their non-empty ones, in order |
| Accessibility.SpeakQueued | src/context/accessibilityContext/AccessibilityProvider.tsx:46-54 | draining the queue to the end speaks exactly what was queued, in queue order, ending or failing alike |
| Accessibility.NonEmptyTextsAppend | src/context/accessibilityContext/AccessibilityProvider.tsx:73-77 | one more announced text adds itself, if non-empty, at the end of the accepted texts |
| Accessibility.DrainBeforeStartRepeatsHead | src/context/accessibilityContext/AccessibilityProvider.tsx:22-45 | when the effect runs again before the first utterance's start event, the head is handed to the synthesiser twice |
| Accessibility.HoverAgainAfterReset | src/context/accessibilityContext/AccessibilityProvider.tsx:121-149 | hovering one element twice announces it once; after the reset timer it is announced again; the queue stays empty throughout |
| HapticSound.CueFor | src/context/hapticSoundContext/HapticSoundProvider.tsx:49-102 | every cue has one to three steps starting at delay 0 in non-decreasing order, and a label gets the default tone exactly when it is not one of the 13 listed labels |
| HapticSound.Mirrored | src/context/hapticSoundContext/HapticSoundProvider.tsx:61-68 | reversing a cue's sounds keeps its length and its delays |
| HapticSound.MirroredTwice | src/context/hapticSoundContext/HapticSoundProvider.tsx:61-68 | reversing twice gives back the cue |
| HapticSound.MirrorTwo | src/context/hapticSoundContext/HapticSoundProvider.tsx:61-76 | a two-step cue reversed swaps its sounds and keeps its delays |
| HapticSound.MirrorThree | src/context/hapticSoundContext/HapticSoundProvider.tsx:90-99 | a three-step cue reversed swaps its outer sounds and keeps its delays |
| HapticSound.PausedMirrorsPlaying | src/context/hapticSoundContext/HapticSoundProvider.tsx:61-68 | Paused plays the tones of Playing in the opposite order at the same delays, and the other way round |
| HapticSound.PreviousMirrorsNext | src/context/hapticSoundContext/HapticSoundProvider.tsx:69-76 | Previous track plays the tones of Next track in the opposite order |
| HapticSound.BluetoothOffMirrorsOn | src/context/hapticSoundContext/HapticSoundProvider.tsx:90-99 | Bluetooth off plays the rising triad of Bluetooth on backwards, at 0, 100 and 200 ms |
| HapticSound.PageLabelsUseDefaultCue | src/context/hapticSoundContext/HapticSoundProvider.tsx:83-101 | the labels `tap`, `press`, `default`, `proximity` and `Proximity` that the pages pass all play the default tone; Temperature control and Home menu share the noise burst |
| HapticSound.HapticSoundPlayer.constructor | src/context/hapticSoundContext/HapticSoundProvider.tsx:12 | the player starts not ready, with nothing played |
| HapticSound.HapticSoundPlayer.PlayHapticSound | src/context/hapticSoundContext/HapticSoundProvider.tsx:41-102 | the backend is started on the first call only, the player is ready afterwards, and exactly the label's cue is scheduled |
| HapticSound.PlayTwice | src/context/hapticSoundContext/HapticSoundProvider.tsx:43-46 | two plays in a row start the backend once and schedule both cues in order |
| VehicleDoor.Controls | src/pages/VehicleDoor/index.tsx:21-34 | valet offers only Lock; driving never offers Lock or Trunk; Trunk exactly for the parked driver door; Radio exactly for passenger doors outside valet; LED exactly for driver doors outside valet; Window exactly outside valet |
| VehicleDoor.LedIntensityFor | src/pages/VehicleDoor/index.tsx:36-40 | each state's LED intensity is a percentage; full exactly when active, off exactly when inactive |
| VehicleDoor.NextStation | src/pages/VehicleDoor/index.tsx:129 | from a station in 1..5 the radio moves one up and wraps from 5 to 1 |
| VehicleDoor.StationsCycle | src/pages/VehicleDoor/index.tsx:128-131 | n presses from any station in 1..5 land on station (s - 1 + n) mod 5 + 1 |
| VehicleDoor.FivePressesReturn | src/pages/VehicleDoor/index.tsx:128-131 | five presses bring the radio back to where it started |
| VehicleDoor.ToggledControl | src/pages/VehicleDoor/index.tsx:116 | pressing the active control clears it, and pressing any other makes it the active one |
| VehicleDoor.Press | src/pages/VehicleDoor/index.tsx:115-145 | a press toggles the active control, flips the lock or the trunk exactly for Lock or Trunk, moves an in-range station exactly for Radio and changes nothing else |
| VehicleDoor.PressFeedback | src/pages/VehicleDoor/index.tsx:115-145 | no feedback exactly for an unknown control or re-pressing the active Window or LED; strong for Lock and Trunk, medium for Window and LED, light for Radio |
| VehicleDoor.PressFeedbackDescribesResult | src/pages/VehicleDoor/index.tsx:124-141 | each press's message, computed from the state before, names the state after: new lock and trunk positions, new station; Window and LED speak exactly when they become active |
| VehicleDoor.PressTwiceRestores | src/pages/VehicleDoor/index.tsx:115-145 | pressing a control other than Radio twice restores the panel except for a different active control being cleared; an unknown control changes only the active control and gives no feedback |
| VehicleDoor.RadioPressStaysInRange | src/pages/VehicleDoor/index.tsx:128-131 | a radio press keeps the station in 1..5 and changes nothing else but the active control |
| VehicleDoor.VehicleDoorPage.constructor | src/pages/VehicleDoor/index.tsx:47-63 | inactive, parked, driver door, window closed, locked, station 1, LED off in the default blue, no proximity, trunk closed, no toast |
| VehicleDoor.VehicleDoorPage.TriggerHapticFeedback | src/pages/VehicleDoor/index.tsx:72-87 | the toast shows the action with a hide timer, the intensity's sound plays, the action is spoken only with the reader on and truthy, and the panel is unchanged |
| VehicleDoor.VehicleDoorPage.ClearFeedback | src/pages/VehicleDoor/index.tsx:86 | the oldest hide timer hides the toast |
| VehicleDoor.VehicleDoorPage.HandleStateChange | src/pages/VehicleDoor/index.tsx:90-112 | any state is stored with its LED intensity; active gives strong feedback; proximity sets the proximity flag, plays `proximity` and speaks with the reader on; inactive clears the flag and only speaks with the reader on |
| VehicleDoor.VehicleDoorPage.Activate | src/pages/VehicleDoor/index.tsx:95 | the active branch: state and full LED, strong "Door controls activated" feedback |
| VehicleDoor.VehicleDoorPage.DetectProximity | src/pages/VehicleDoor/index.tsx:96-102 | the proximity branch: half LED, proximity detected, the `proximity` sound, speech only with the reader on, no toast |
| VehicleDoor.VehicleDoorPage.Deactivate | src/pages/VehicleDoor/index.tsx:103-108 | the inactive branch: LED off, proximity cleared, no sound, speech only with the reader on |
| VehicleDoor.VehicleDoorPage.HandleControlPress | src/pages/VehicleDoor/index.tsx:115-145 | every press, available or not and in any state, makes exactly the state change and the feedback that `Press` and `PressFeedback` describe |
| VehicleDoor.VehicleDoorPage.PressActivating | src/pages/VehicleDoor/index.tsx:119-123 | Window and LED toggle the active control and give medium feedback only when they were not already active |
| VehicleDoor.VehicleDoorPage.PressLock | src/pages/VehicleDoor/index.tsx:124-127 | the lock flips and the message names the new position |
| VehicleDoor.VehicleDoorPage.PressRadio | src/pages/VehicleDoor/index.tsx:128-132 | the station advances with wrap-around and the message names the new station |
| VehicleDoor.VehicleDoorPage.PressTrunk | src/pages/VehicleDoor/index.tsx:133-136 | the trunk flips and the message names the new position |
| VehicleDoor.VehicleDoorPage.HandleWindowSliderChange | src/pages/VehicleDoor/index.tsx:148-152 | the window position is stored and the light feedback says how far the window is open (100 minus the position) |
| VehicleDoor.VehicleDoorPage.HandleLedSliderChange | src/pages/VehicleDoor/index.tsx:154-157 | the LED intensity is stored and the light feedback names it in percent |
| VehicleDoor.VehicleDoorPage.HandleLedColorChange | src/pages/VehicleDoor/index.tsx:159-162 | the colour is stored with light "LED color changed" feedback |
| VehicleDoor.VehicleDoorPage.HandleModeChange | src/pages/VehicleDoor/index.tsx:165-173 | the mode is stored with medium feedback and, with the reader on, the controls of the new mode for the current door are listed after the announcement |
| VehicleDoor.VehicleDoorPage.HandleDoorTypeChange | src/pages/VehicleDoor/index.tsx:175-183 | the door is stored with medium feedback and, with the reader on, the new door's controls in the current mode are listed after the announcement |
| VehicleDoor.StaleTimerHidesLaterFeedback | src/pages/VehicleDoor/index.tsx:86 | two presses in a row leave two timers; the first one hides the second press's toast while its own timer is still pending |
| VehicleDoorDisplay.CurrentColor | src/pages/VehicleDoor/components/VehicleDoorDisplay.tsx:39-40 | with the LED on, a hovered colour previews over the chosen one; with it off, the default blue |
| VehicleDoorDisplay.ControlStyle | src/pages/VehicleDoor/components/VehicleDoorDisplay.tsx:76-95 | unavailable controls look disabled, the available active one selected; any other available control is lit exactly in the active state, dimmed exactly in the proximity state and off otherwise |
| VehicleDoorDisplay.WindowPositionFor | src/pages/VehicleDoor/components/VehicleDoorDisplay.tsx:171-177 | the position the window slider writes back makes the slider show the value it was moved to, and converting a shown value back gives the position |
| VehicleDoorDisplay.SliderValue | src/pages/VehicleDoor/components/VehicleDoorDisplay.tsx:148 | the window slider shows 100 minus the position, in 0..100 for a position in range, and the LED slider the intensity |
| VehicleDoorDisplay.SliderPanel | src/pages/VehicleDoor/components/VehicleDoorDisplay.tsx:170-175 | the page state after a slider change makes the slider show the new value |
| VehicleDoorDisplay.LitSegments | src/pages/VehicleDoor/components/VehicleDoorDisplay.tsx:149 | the number of lit segments is the value's tens digit, between 0 and 10 for a value in 0..100 |
| VehicleDoorDisplay.SegmentRow | src/pages/VehicleDoor/components/VehicleDoorDisplay.tsx:154-161 | of the ten segments, segment i is lit exactly when the value reaches 10(i + 1), so the lit ones form a prefix |
| VehicleDoorDisplay.Shown | src/pages/VehicleDoor/components/VehicleDoorDisplay.tsx:312-313 | filtering keeps exactly the candidates that are available |
| VehicleDoorDisplay.RenderedControls | src/pages/VehicleDoor/components/VehicleDoorDisplay.tsx:312-313 | the panel renders exactly the known controls that are available, at most five |
| VehicleDoorDisplay.StatusText | src/pages/VehicleDoor/components/VehicleDoorDisplay.tsx:193-202 | the status line is empty exactly for an unknown control; Window shows the slider value as "% Open", LED its intensity, Lock "Locked" or "Unlocked", Trunk "Open" or "Closed", Radio "Station" and the station number |
| VehicleDoorDisplay.StatusAgreesWithPressFeedback | src/pages/VehicleDoor/components/VehicleDoorDisplay.tsx:193-202 | after a Lock, Trunk or Radio press the status line names the same position or station as the press's toast |
| VehicleDoorDisplay.DoorDisplay.constructor | src/pages/VehicleDoor/components/VehicleDoorDisplay.tsx:61-62 | no hovered colour and the picker closed, over a page that keeps its invariant |
| VehicleDoorDisplay.DoorDisplay.SyncColorPicker | src/pages/VehicleDoor/components/VehicleDoorDisplay.tsx:65-67 | the picker is open exactly when LED is the active control |
| VehicleDoorDisplay.DoorDisplay.HandleControlClick | src/pages/VehicleDoor/components/VehicleDoorDisplay.tsx:121-130 | a click on an unavailable control or outside the active state changes nothing; otherwise LED toggles the picker, any other control closes it, and the page handles exactly one press; a synced picker stays synced |
| VehicleDoorDisplay.DoorDisplay.HandleColorHover | src/pages/VehicleDoor/components/VehicleDoorDisplay.tsx:132-136 | a hover previews the colour only through an open picker on an LED door |
| VehicleDoorDisplay.DoorDisplay.HandleColorLeave | src/pages/VehicleDoor/components/VehicleDoorDisplay.tsx:266 | leaving a swatch always ends the preview |
| VehicleDoorDisplay.DoorDisplay.HandleColorSelect | src/pages/VehicleDoor/components/VehicleDoorDisplay.tsx:138-143 | through an open picker the colour is set on the page with light "LED color changed" feedback (toast, cue, speech with the reader on) and the preview ends; otherwise nothing changes |
| VehicleDoorDisplay.DoorDisplay.HandleSliderChange | src/pages/VehicleDoor/components/VehicleDoorDisplay.tsx:146-178 | a slider moved to a value in 0..100 changes only the window position or LED intensity, so that the slider shows that value, and gives the light window or LED feedback for it |
| SteeringWheel.ContextualButtons | src/pages/SteeringWheelConcept/index.tsx:23-27 | four distinct, non-empty labels per mode |
| SteeringWheel.ModeButtonsDisjoint | src/pages/SteeringWheelConcept/index.tsx:23-27 | no label belongs to two modes |
| SteeringWheel.Tier | src/pages/SteeringWheelConcept/index.tsx:68-77 | below 30 is accidental, strictly above 60 intentional, and 30 to 60 inclusive undecided |
| SteeringWheel.TierMonotone | src/pages/SteeringWheelConcept/index.tsx:68-77 | a harder press never falls into a lower tier |
| SteeringWheel.ActiveButtonAfter | src/pages/SteeringWheelConcept/index.tsx:64-78 | a reading above 60 selects the button; any other keeps the selection |
| SteeringWheel.PressureFeedback | src/pages/SteeringWheelConcept/index.tsx:64-78 | strong "pressed" feedback above 60, light "detected" feedback below 30 only with nothing selected, none from 30 to 60 |
| SteeringWheel.PressureTiers | src/pages/SteeringWheelConcept/index.tsx:64-78 | only a press above 60 changes the selected button and then gives strong feedback; light feedback exactly for a touch below 30 with no button selected; 30 to 60, and 60 itself, give nothing |
| SteeringWheel.SteeringWheelPage.constructor | src/pages/SteeringWheelConcept/index.tsx:16-22 | inactive, drive mode, pressure 0, no button selected, both hands off, no toast |
| SteeringWheel.SteeringWheelPage.TriggerHapticFeedback | src/pages/SteeringWheelConcept/index.tsx:29-45 | the toast shows the action with a hide timer, the intensity's sound plays, the action is spoken only with the reader on, and the wheel state is unchanged |
| SteeringWheel.SteeringWheelPage.ClearFeedback | src/pages/SteeringWheelConcept/index.tsx:42-44 | the oldest hide timer hides the toast |
| SteeringWheel.SteeringWheelPage.HandleStateChange | src/pages/SteeringWheelConcept/index.tsx:47-62 | any string is stored; active gives strong feedback; proximity plays `proximity` and speaks with the reader on; inactive only speaks with the reader on; any other string gives no reaction |
| SteeringWheel.SteeringWheelPage.DetectHand | src/pages/SteeringWheelConcept/index.tsx:52-56 | the proximity branch plays `proximity` and speaks only with the reader on |
| SteeringWheel.SteeringWheelPage.HandlePressure | src/pages/SteeringWheelConcept/index.tsx:64-78 | the pressure is always recorded; the selected button and the feedback follow the tier, read against the button selected before |
| SteeringWheel.SteeringWheelPage.HandleModeChange | src/pages/SteeringWheelConcept/index.tsx:80-89 | the mode changes with medium feedback and the new mode's buttons are listed with the reader on; the selected button and the pressure are kept |
| SteeringWheel.SteeringWheelPage.HandleHandPosition | src/pages/SteeringWheelConcept/index.tsx:91-97 | both hands are stored and the strong safety alert fires exactly when a hand is off |
| WheelInteractionDemo.SimulatedPressure | src/pages/SteeringWheelConcept/components/InteractionDemo.tsx:27-34 | each demo pressure is a percentage |
| WheelInteractionDemo.SimulatedPressuresCoverTiers | src/pages/SteeringWheelConcept/components/InteractionDemo.tsx:27-34 | light, medium and firm (25, 50, 85) land in the accidental, undecided and intentional tiers, and a card press (75) is intentional |
| WheelInteractionDemo.PressureRows | src/pages/SteeringWheelConcept/components/InteractionDemo.tsx:61 | the rows are the first two buttons (all of them when there are fewer), in order |
| WheelInteractionDemo.DemoPresses | src/pages/SteeringWheelConcept/components/InteractionDemo.tsx:36-130 | no press while inactive; otherwise 25, 50 and 85 for each of the first two buttons and a card press for every button, and no other pressure or button |
| WheelInteractionDemo.Caption | src/pages/SteeringWheelConcept/components/InteractionDemo.tsx:98-107 | a caption shows exactly when a button is selected; below 30 guidance, 30 to 59 preparing, 60 and up activated |
| WheelInteractionDemo.ToastVisible | src/pages/SteeringWheelConcept/components/InteractionDemo.tsx:146 | the toast shows exactly while feedback is on with a non-empty action |
| WheelInteractionDemo.CaptionAndHandlerDisagreeOnlyAt60 | src/pages/SteeringWheelConcept/components/InteractionDemo.tsx:104-106 | the caption calls a recorded pressure an activation the handler did not make exactly at 60; the guidance caption matches the accidental tier |
| WheelInteractionDemo.CardClick | src/pages/SteeringWheelConcept/components/InteractionDemo.tsx:130 | clicking a mode's card selects its button with strong "pressed" feedback, the toast shows, and the caption reads activated |
| WheelModel.NextPressure | src/pages/SteeringWheelConcept/components/SteeringWheel3DModel.tsx:52-58 | one frame keeps the pressure in 0..100, never lowers it while held and never raises it once released |
| WheelModel.Ramp | src/pages/SteeringWheelConcept/components/SteeringWheel3DModel.tsx:43-58 | over any number of frames the pressure stays in 0..100 and never falls while held or rises while released |
| WheelModel.PressRampClosedForm | src/pages/SteeringWheelConcept/components/SteeringWheel3DModel.tsx:52-58 | held for n frames, the pressure is p + 10n capped at 100 |
| WheelModel.ReleaseRampClosedForm | src/pages/SteeringWheelConcept/components/SteeringWheel3DModel.tsx:52-58 | released for n frames, the pressure is p - 20n floored at 0 |
| WheelModel.Emitted | src/pages/SteeringWheelConcept/components/SteeringWheel3DModel.tsx:43-65 | a run of frames reports at most one pressure per frame |
| WheelModel.EmittedOrdered | src/pages/SteeringWheelConcept/components/SteeringWheel3DModel.tsx:43-65 | only positive pressures are reported, rising strictly while held and falling strictly while released |
| WheelModel.PressReports | src/pages/SteeringWheelConcept/components/SteeringWheel3DModel.tsx:52-65 | held from p, the reports are p + 10, p + 20, ... (capped at 100), one per frame until full, then none |
| WheelModel.ReleaseReports | src/pages/SteeringWheelConcept/components/SteeringWheel3DModel.tsx:52-65 | released from p, the reports are p - 20, p - 40, ... while positive; reaching 0 is not reported |
| WheelModel.StillRampReportsNothing | src/pages/SteeringWheelConcept/components/SteeringWheel3DModel.tsx:61-65 | a button held at 100 or released at 0 reports nothing |
| WheelModel.PressFromRestSelectsAtSeventhReport | src/pages/SteeringWheelConcept/components/SteeringWheel3DModel.tsx:52-65 | held from rest, the i-th report is 10(i + 1); the first two are accidental touches and the page selects the button from the seventh on |
| WheelModel.RampStep | src/pages/SteeringWheelConcept/components/SteeringWheel3DModel.tsx:43-65 | each further frame takes one ramp step and adds that frame's report, if any, at the end |
| WheelModel.TactileButton.constructor | src/pages/SteeringWheelConcept/components/SteeringWheel3DModel.tsx:39-41 | not hovered, not pressed, pressure 0 |
| WheelModel.TactileButton.PointerOver | src/pages/SteeringWheelConcept/components/SteeringWheel3DModel.tsx:82 | pointer over sets the hover flag |
| WheelModel.TactileButton.PointerOut | src/pages/SteeringWheelConcept/components/SteeringWheel3DModel.tsx:83 | pointer out clears the hover flag |
| WheelModel.TactileButton.PointerDown | src/pages/SteeringWheelConcept/components/SteeringWheel3DModel.tsx:84 | pointer down sets the pressed flag |
| WheelModel.TactileButton.PointerUp | src/pages/SteeringWheelConcept/components/SteeringWheel3DModel.tsx:85 | pointer up clears the pressed flag |
| WheelModel.TactileButton.Frame | src/pages/SteeringWheelConcept/components/SteeringWheel3DModel.tsx:43-65 | one frame takes a ramp step and reports the new pressure exactly when it changed and is positive |
| WheelModel.TactileButton.OnPressReplaced | src/pages/SteeringWheelConcept/components/SteeringWheel3DModel.tsx:61-65 | a new pressure handler re-reports the current pressure exactly when it is positive |
| WheelModel.TactileButton.RunFrames | src/pages/SteeringWheelConcept/components/SteeringWheel3DModel.tsx:43-65 | running n frames leaves the ramp's pressure and returns exactly the reports of those frames, in order |
| WheelModel.PressAndRelease | src/pages/SteeringWheelConcept/components/SteeringWheel3DModel.tsx:52-65 | holding from rest until full reports 10, 20, ..., 100; releasing then reports 80, 60, 40, 20 |
| WheelModel.ButtonConfigsMatchPage | src/pages/SteeringWheelConcept/components/SteeringWheel3DModel.tsx:142-161 | the four buttons sit at the same four places in every mode |
| WheelModel.ButtonConfigs | src/pages/SteeringWheelConcept/components/SteeringWheel3DModel.tsx:142-161 | four buttons per mode, captioned with the page's labels in the page's order |
| WheelModel.ButtonsVisible | src/pages/SteeringWheelConcept/components/SteeringWheel3DModel.tsx:362 | the buttons show in every lifecycle state but inactive |
| WheelModel.SafetyWarningVisible | src/pages/SteeringWheelConcept/components/SteeringWheel3DModel.tsx:379 | the warning shows only on an active wheel with a hand off it, and so only where buttons show |
| WheelModel.GripHover | src/pages/SteeringWheelConcept/components/SteeringWheel3DModel.tsx:196-202 | the hovered side takes the hover flag and the other side is passed through unchanged |
| WheelModel.SafetyWarningMatchesAlert | src/pages/SteeringWheelConcept/components/SteeringWheel3DModel.tsx:379 | on an active wheel the warning shows exactly when a hand is off; in any other state it never shows |
| WheelModel.ListedContacts | src/pages/SteeringWheelConcept/components/SteeringWheel3DModel.tsx:275 | at most the first four contacts are listed, all of them when there are four or fewer |
| WheelModel.WheelScroll | src/pages/SteeringWheelConcept/components/SteeringWheel3DModel.tsx:331-341 | a wheel event scrolls exactly with the list shown, a listener and a movement over 5, downwards exactly for a positive one |
| WheelModel.PointerScroll | src/pages/SteeringWheelConcept/components/SteeringWheel3DModel.tsx:342-349 | a pointer move scrolls exactly with the list shown and a movement over 3, downwards exactly for a positive one |
| WheelModel.ScrollArea.constructor | src/pages/SteeringWheelConcept/components/SteeringWheel3DModel.tsx:138 | no direction highlighted, nothing scrolled |
| WheelModel.ScrollArea.OnWheel | src/pages/SteeringWheelConcept/components/SteeringWheel3DModel.tsx:331-341 | a qualifying wheel event highlights its direction, calls the listener once and schedules a clear; otherwise nothing changes |
| WheelModel.ScrollArea.OnPointerMove | src/pages/SteeringWheelConcept/components/SteeringWheel3DModel.tsx:342-349 | a qualifying move highlights its direction and schedules a clear even without a listener, and calls the listener when there is one |
| WheelModel.ScrollArea.ClearScrollDirection | src/pages/SteeringWheelConcept/components/SteeringWheel3DModel.tsx:338 | a clear timer removes the highlight |
| WheelView.ErrorBoundary.constructor | src/pages/SteeringWheelConcept/components/SteeringWheel3D.tsx:138-141 | the boundary starts without an error |
| WheelView.ErrorBoundary.Render | src/pages/SteeringWheelConcept/components/SteeringWheel3D.tsx:151-163 | the boundary shows the placeholder exactly after an error and the model otherwise, never the fallback wheel |
| WheelView.ErrorBoundary.RenderPass | src/pages/SteeringWheelConcept/components/SteeringWheel3D.tsx:143-145 | a throwing child sets the error flag and nothing clears it |
| WheelView.Shown | src/pages/SteeringWheelConcept/components/SteeringWheel3D.tsx:143-163 | a run of render passes shows one view per pass |
| WheelView.ShownLatches | src/pages/SteeringWheelConcept/components/SteeringWheel3D.tsx:143-163 | in any run the fallback wheel never shows, and the placeholder shows from the first failure on, the model before it |
| WheelView.RenderPasses | src/pages/SteeringWheelConcept/components/SteeringWheel3D.tsx:433-438 | the mounted boundary shows exactly what `Shown` describes and never the fallback wheel |
| SofaArm.BrightnessFor | src/pages/SofaArmConcept/index.tsx:89-95 | low ambient light gives 40 %, medium 70 % and high 100 %, each exactly then |
| SofaArm.InitialBrightnessNotReproduced | src/pages/SofaArmConcept/index.tsx:41 | no reading ever gives back the initial 80 %; every reading gives 40, 70 or 100 |
| SofaArm.RenderedView | src/pages/SofaArmConcept/index.tsx:133-144 | the active and proximity views show exactly for their names, and any unknown state shows the inactive view |
| SofaArm.SofaArmPage.constructor | src/pages/SofaArmConcept/index.tsx:23-42 | inactive, not playing, volume 65, TV and soundbar on and lights off, Bluetooth on, brightness 80, no toast |
| SofaArm.SofaArmPage.TriggerHapticFeedback | src/pages/SofaArmConcept/index.tsx:45-59 | the toast shows the action with a hide timer, the action's own cue plays (`default` for none), it is spoken with the reader on, and the panel is unchanged |
| SofaArm.SofaArmPage.ClearFeedback | src/pages/SofaArmConcept/index.tsx:56-58 | the oldest hide timer hides the toast |
| SofaArm.SofaArmPage.HandleStateChange | src/pages/SofaArmConcept/index.tsx:62-78 | any string is stored and the rest of the panel kept; active gives "Panel activated" feedback; proximity plays `Proximity` and speaks with the reader on; inactive only speaks; any other string gives nothing |
| SofaArm.SofaArmPage.Activate | src/pages/SofaArmConcept/index.tsx:65-66 | the active branch: "Panel activated" feedback with its own cue |
| SofaArm.SofaArmPage.Approach | src/pages/SofaArmConcept/index.tsx:67-72 | the proximity branch: the `Proximity` sound, speech only with the reader on, no toast |
| SofaArm.SofaArmPage.Deactivate | src/pages/SofaArmConcept/index.tsx:73-76 | the inactive branch: no sound, speech only with the reader on, no toast |
| SofaArm.SofaArmPage.AmbientLightChange | src/pages/SofaArmConcept/index.tsx:84-96 | a sensor reading is stored and sets the brightness from the table, changing nothing else |
| ActiveSofaArm.VolumeAfterUp | src/pages/SofaArmConcept/components/ActiveSofaArm.tsx:225 | from a volume in 0..100, up stays in range, never lowers it, and leaves it unchanged exactly at 100 |
| ActiveSofaArm.VolumeAfterDown | src/pages/SofaArmConcept/components/ActiveSofaArm.tsx:239 | from a volume in 0..100, down stays in range, never raises it, and leaves it unchanged exactly at 0 |
| ActiveSofaArm.VolumeStepsUndo | src/pages/SofaArmConcept/components/ActiveSofaArm.tsx:225-239 | up then down restores any volume up to 95, down then up any from 5, and 100 comes back as 95 |
| ActiveSofaArm.ToggleLights | src/pages/SofaArmConcept/components/ActiveSofaArm.tsx:278-280 | the switch keeps the list's length, order, ids and names, and flips an entry exactly when its id is `lights` |
| ActiveSofaArm.ToggleLightsTwice | src/pages/SofaArmConcept/components/ActiveSofaArm.tsx:278-280 | switching twice restores the device list |
| ActiveSofaArm.LightsActive | src/pages/SofaArmConcept/components/ActiveSofaArm.tsx:266 | missing exactly when no entry has the id `lights`; otherwise the state of the first such entry |
| ActiveSofaArm.ToggleLightsFlipsState | src/pages/SofaArmConcept/components/ActiveSofaArm.tsx:278-286 | after the switch the lights read as the opposite of before and the label says "Lights on" exactly when they were off; a list without lights is left alone and reads "Lights off" |
| ActiveSofaArm.LightsLabel | src/pages/SofaArmConcept/components/ActiveSofaArm.tsx:282-286 | the label is "Lights on" exactly when the list says the lights are on, and "Lights off" otherwise, a missing entry included |
| ActiveSofaArm.FirstLightsSwitchTurnsOn | src/pages/SofaArmConcept/components/ActiveSofaArm.tsx:276-286 | on the initial devices the first switch says "Lights on" and a second one restores them |
| ActiveSofaArm.PanelLabelsHaveOwnCues | src/context/hapticSoundContext/HapticSoundProvider.tsx:49-99 | every label the active panel's buttons send has a cue of its own rather than the default tone |
| ActiveSofaArm.VolumeUp | src/pages/SofaArmConcept/components/ActiveSofaArm.tsx:223-227 | the volume goes up by 5 capped at 100, nothing else changes, and "Volume up" feedback is given |
| ActiveSofaArm.VolumeDown | src/pages/SofaArmConcept/components/ActiveSofaArm.tsx:237-241 | the volume goes down by 5 floored at 0, nothing else changes, and "Volume down" feedback is given |
| ActiveSofaArm.TogglePlay | src/pages/SofaArmConcept/components/ActiveSofaArm.tsx:177-181 | playback flips and the feedback names the new state: "Playing" or "Paused" |
| ActiveSofaArm.SwitchLights | src/pages/SofaArmConcept/components/ActiveSofaArm.tsx:276-287 | the devices take the lights switch and the feedback is read from the new list |
| ActiveSofaArm.ToggleBluetooth | src/pages/SofaArmConcept/components/ActiveSofaArm.tsx:323-327 | Bluetooth flips and the feedback says "Bluetooth off" exactly when it was connected |
| ActiveSofaArm.PressFeedbackButton | src/pages/SofaArmConcept/components/ActiveSofaArm.tsx:164-167 | previous, next, temperature and home change no state and give their own feedback |
| ActiveSofaArm.FeedbackLabel | src/pages/SofaArmConcept/components/ActiveSofaArm.tsx:164-167 | each feedback-only button's label has its own cue in the sound table |
| ActiveSofaArm.ToastText | src/pages/SofaArmConcept/components/ActiveSofaArm.tsx:91-101 | the toast renders exactly while feedback is on and shows the last action |
| ActiveSofaArm.PlayPauseFromFresh | src/pages/SofaArmConcept/components/ActiveSofaArm.tsx:177-181 | from a fresh page, play twice plays the Playing then the Paused cue and leaves the media paused with "Paused" on the toast |
| ActiveSofaArm.CuesOfTwo | src/context/hapticSoundContext/HapticSoundProvider.tsx:41-102 | the cues of two labels played in turn are their two cues in order |

## Left out

- Presentation: JSX layout, CSS classes, icons, motion animations and the button glow styles (`getButtonDynamicStyle`, the LED glow's hexadecimal opacity). They decide no state.
- The Three.js scene: model loading, lights, camera, the idle bobbing, the active-button pulse, the hover glow and the `Suspense` loader. The frame step assumes the button's mesh is mounted; the source skips frames until it is.
- Tone.js synthesis: cues are data (notes, lengths, velocities, delays). The provider's effect that builds and disposes synthesisers on `isReady` changes produces no observable state.
- Speech-synthesis details: voice selection, pitch, rate and volume. An utterance records only whether it came from the queue or from a hover.
- Real time: the 1500, 300 and 200 ms delays and the 8 s ambient interval are explicit methods. Their relative timing is chosen by the caller.
- The ambient sensor's `Math.random` reading is a parameter of `AmbientLightChange`. Clearing the interval on unmount is not modelled.
- `getPanelOpacity`: a floating-point formatting of the brightness that feeds only a style.
- VehicleDoor.VehicleDoorPage.HandleLedSliderChange: takes the intensity as an integer percent rather than a fraction, so the rounding of `intensity * 100` in its message is not modelled.
- VehicleDoor.VehicleDoorPage.HandleWindowSliderChange: takes an integer position, so the `Math.round` in its message has nothing to round.
- The feedback-only views (`CurrentStateView`, `FeatureSection`, `AccessibilityControls`, the wheel displays), the landing page, the layout, routes, `LazyLoad`, `UserGuidance` and `HoverAnnounceWrapper` are not part of this model. The state selectors only choose a lifecycle state, which every `HandleStateChange` accepts for any input.
- The fallback steering wheel's own rendering is not modelled, because the error boundary never shows it. Its grip rule is kept as `GripHover`.
- Unmounting and remounting: the tactile buttons are keyed by mode and rendered only outside the inactive state. A mode change or deactivation therefore resets their pressure; the model starts each button from its constructor.
- Accessibility.SpeakInOrder: proves once-each, in-order speech only for the schedule it runs (announce everything, then effect, start and end per text). For other schedules the model proves only the ordering stated by `RunQueueEvents`, because a text can be issued twice or skipped.
- WheelModel.TactileButton.OnPressReplaced: the model leaves open when a new handler arrives. The caller chooses when to call it, because the handler's identity depends on provider re-renders that are not modelled.
