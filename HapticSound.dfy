/**
 * The haptic sound provider: a table from action labels to short tone cues, and a player
 * that starts the audio backend once, on its first use.
 */
module HapticSound {

  /** One synthesised sound: a tone with its length and velocity, or a burst of white noise. */
  datatype Sound = Tone(note: string, durationMs: nat, velocityPct: nat) | WhiteNoise(durationMs: nat)

  /** A sound scheduled `delayMs` after the cue starts. */
  datatype Step = Step(sound: Sound, delayMs: nat)

  /** The single tone played for every label the table does not list. */
  const DefaultCue: seq<Step> := [Step(Tone("C4", 80, 30), 0)]

  /** The labels with a cue of their own. */
  const CueLabels: set<string> := {
    "Panel activated", "Volume up", "Volume down", "Playing", "Paused", "Next track",
    "Previous track", "Lights on", "Lights off", "Temperature control", "Home menu",
    "Bluetooth on", "Bluetooth off"
  }

  /** The delays of a cue start at 0 and never decrease. */
  ghost predicate WellTimed(cue: seq<Step>) {
    && |cue| > 0
    && cue[0].delayMs == 0
    && forall i, j :: 0 <= i < j < |cue| ==> cue[i].delayMs <= cue[j].delayMs
  }

  /** The cue `playHapticSound` schedules for an action label. */
  function CueFor(action: string): (cue: seq<Step>)
    ensures 1 <= |cue| <= 3 && WellTimed(cue)
    ensures action !in CueLabels <==> cue == DefaultCue
  {
    if action == "Panel activated" then
      [Step(Tone("C4", 100, 50), 0), Step(Tone("E4", 100, 30), 100)]
    else if action == "Volume up" then [Step(Tone("C5", 50, 30), 0)]
    else if action == "Volume down" then [Step(Tone("G4", 50, 30), 0)]
    else if action == "Playing" then
      [Step(Tone("G4", 50, 40), 0), Step(Tone("C5", 50, 40), 70)]
    else if action == "Paused" then
      [Step(Tone("C5", 50, 40), 0), Step(Tone("G4", 50, 40), 70)]
    else if action == "Next track" then
      [Step(Tone("E5", 50, 30), 0), Step(Tone("G5", 50, 30), 50)]
    else if action == "Previous track" then
      [Step(Tone("G5", 50, 30), 0), Step(Tone("E5", 50, 30), 50)]
    else if action == "Lights on" then [Step(Tone("C6", 200, 20), 0)]
    else if action == "Lights off" then [Step(Tone("A3", 200, 20), 0)]
    else if action == "Temperature control" || action == "Home menu" then
      [Step(WhiteNoise(50), 0)]
    else if action == "Bluetooth on" then
      [Step(Tone("C5", 50, 30), 0), Step(Tone("E5", 50, 30), 100), Step(Tone("G5", 50, 30), 200)]
    else if action == "Bluetooth off" then
      [Step(Tone("G5", 50, 30), 0), Step(Tone("E5", 50, 30), 100), Step(Tone("C5", 50, 30), 200)]
    else DefaultCue
  }

  /** The same schedule with the sounds played in the opposite order. */
  function Mirrored(cue: seq<Step>): (m: seq<Step>)
    ensures |m| == |cue|
    ensures forall i {:trigger m[i]} :: 0 <= i < |cue| ==>
      m[i].delayMs == cue[i].delayMs && m[i].sound == cue[|cue| - 1 - i].sound
  {
    seq(|cue|, i requires 0 <= i < |cue| => Step(cue[|cue| - 1 - i].sound, cue[i].delayMs))
  }

  /** Mirroring twice gives back the cue, so each pair below is one relation read both ways. */
  lemma MirroredTwice(cue: seq<Step>)
    ensures Mirrored(Mirrored(cue)) == cue
  {
    var m := Mirrored(cue);
    var mm := Mirrored(m);
    forall i | 0 <= i < |cue| ensures mm[i] == cue[i] {
      assert mm[i].sound == m[|cue| - 1 - i].sound == cue[i].sound;
    }
  }

  /** Mirroring a two-step cue swaps its sounds and keeps its delays. */
  lemma MirrorTwo(a: Sound, b: Sound, d: nat)
    ensures Mirrored([Step(a, 0), Step(b, d)]) == [Step(b, 0), Step(a, d)]
  {
    var m := Mirrored([Step(a, 0), Step(b, d)]);
    assert m[0] == Step(b, 0) && m[1] == Step(a, d);
  }

  /** Mirroring a three-step cue swaps its outer sounds and keeps its delays. */
  lemma MirrorThree(a: Sound, b: Sound, c: Sound, d1: nat, d2: nat)
    ensures Mirrored([Step(a, 0), Step(b, d1), Step(c, d2)]) == [Step(c, 0), Step(b, d1), Step(a, d2)]
  {
    var m := Mirrored([Step(a, 0), Step(b, d1), Step(c, d2)]);
    assert m[0] == Step(c, 0) && m[1] == Step(b, d1) && m[2] == Step(a, d2);
  }

  /** Paused plays the two tones of Playing in the opposite order, at the same delays. */
  lemma PausedMirrorsPlaying()
    ensures CueFor("Paused") == Mirrored(CueFor("Playing"))
    ensures CueFor("Playing") == Mirrored(CueFor("Paused"))
  {
    MirrorTwo(Tone("G4", 50, 40), Tone("C5", 50, 40), 70);
    MirrorTwo(Tone("C5", 50, 40), Tone("G4", 50, 40), 70);
  }

  /** Previous track plays the two tones of Next track in the opposite order. */
  lemma PreviousMirrorsNext()
    ensures CueFor("Previous track") == Mirrored(CueFor("Next track"))
  {
    MirrorTwo(Tone("E5", 50, 30), Tone("G5", 50, 30), 50);
  }

  /** Bluetooth off plays C5, E5, G5 of Bluetooth on backwards, at 0, 100 and 200 ms. */
  lemma BluetoothOffMirrorsOn()
    ensures CueFor("Bluetooth off") == Mirrored(CueFor("Bluetooth on"))
    ensures [CueFor("Bluetooth on")[1].delayMs, CueFor("Bluetooth on")[2].delayMs] == [100, 200]
  {
    MirrorThree(Tone("C5", 50, 30), Tone("E5", 50, 30), Tone("G5", 50, 30), 100, 200);
  }

  /** Labels the pages pass that the table does not list fall back to the default tone. */
  lemma PageLabelsUseDefaultCue()
    ensures CueFor("tap") == CueFor("press") == CueFor("default") == DefaultCue
    ensures CueFor("proximity") == CueFor("Proximity") == DefaultCue
    ensures CueFor("Temperature control") == CueFor("Home menu") == [Step(WhiteNoise(50), 0)]
  {
  }

  /** The cues for a sequence of labels, in order. */
  function Cues(labels: seq<string>): seq<seq<Step>> {
    if labels == [] then [] else [CueFor(labels[0])] + Cues(labels[1..])
  }

  /**
   * The provider's player. `isReady` records that the audio backend was started; `played`
   * is the sequence of cues handed to the synthesiser.
   */
  class HapticSoundPlayer {
    var isReady: bool
    var audioStarts: nat
    var played: seq<seq<Step>>

    /** The backend is started at most once, and exactly when the player is ready. */
    ghost predicate Valid()
      reads this
    {
      audioStarts == if isReady then 1 else 0
    }

    /** Exactly the cues for `labels` were scheduled, and the player is ready once any was. */
    twostate predicate Played(labels: seq<string>)
      reads this
    {
      && played == old(played) + Cues(labels)
      && isReady == (old(isReady) || labels != [])
    }

    constructor ()
      ensures Valid() && !isReady && played == []
    {
      isReady := false;
      audioStarts := 0;
      played := [];
    }

    /** Starts the backend on the first call only, then schedules the cue for `action`. */
    method PlayHapticSound(action: string)
      requires Valid()
      modifies this
      ensures Valid() && isReady
      ensures audioStarts == old(audioStarts) + (if old(isReady) then 0 else 1)
      ensures played == old(played) + [CueFor(action)]
      ensures Played([action])
    {
      if !isReady {
        audioStarts := audioStarts + 1;
        isReady := true;
      }
      played := played + [CueFor(action)];
    }
  }

  /** Two plays in a row start the backend once and schedule both cues in order. */
  method PlayTwice(first: string, second: string) returns (starts: nat, cues: seq<seq<Step>>)
    ensures starts == 1
    ensures cues == [CueFor(first), CueFor(second)]
  {
    var player := new HapticSoundPlayer();
    player.PlayHapticSound(first);
    player.PlayHapticSound(second);
    starts, cues := player.audioStarts, player.played;
  }
}
