/**
 * The accessibility provider: a screen-reader switch, a hover-announcement switch, and a
 * speech queue that the provider drains one utterance at a time into the browser's speech
 * synthesiser. Hover announcements go to the synthesiser directly and never enter the queue.
 */
module Accessibility {
  import opened Common

  const ScreenReaderEnabledMessage := "Screen reader mode enabled. All actions will be spoken aloud."
  const HoverEnabledMessage := "Hover announcements enabled."
  const HoverDisabledMessage := "Hover announcements disabled."

  /** The action labels that are spoken with a more descriptive phrase. */
  const Descriptions: map<string, string> := map[
    "Panel activated" := "Control panel activated",
    "Volume up" := "Volume increased",
    "Volume down" := "Volume decreased",
    "Playing" := "Media playing",
    "Paused" := "Media paused",
    "Next track" := "Skipped to next track",
    "Previous track" := "Returned to previous track",
    "Lights on" := "Lights turned on",
    "Lights off" := "Lights turned off",
    "Temperature control" := "Temperature control accessed",
    "Home menu" := "Home menu opened",
    "Bluetooth on" := "Bluetooth connection enabled",
    "Bluetooth off" := "Bluetooth connection disabled"
  ]

  /** The phrase spoken for an action: listed labels are reworded, all others pass through. */
  function DescriptiveText(action: string): (text: string)
    ensures action !in Descriptions ==> text == action
    ensures action in Descriptions ==> text == Descriptions[action] && text != action
    ensures text == "" <==> action == ""
  {
    if action in Descriptions then Descriptions[action] else action
  }

  /** What `speakAction` appends to the queue: nothing while disabled or for a falsy action. */
  function ActionSpeech(enabled: bool, action: Option<string>): (texts: seq<string>)
    ensures |texts| <= 1
    ensures texts != [] <==> enabled && Truthy(action)
    ensures texts != [] ==> texts[0] == DescriptiveText(action.value) && texts[0] != ""
  {
    if enabled && Truthy(action) then [DescriptiveText(action.value)] else []
  }

  /** Queued announcements and hover announcements are voiced with different settings. */
  datatype UtteranceKind = Announcement | HoverAnnouncement

  /** One call to the synthesiser's `speak`. */
  datatype Utterance = Utterance(text: string, kind: UtteranceKind)

  /** The texts of `texts` that `speakText` accepts, in order. */
  function NonEmptyTexts(texts: seq<string>): (r: seq<string>)
    ensures |r| <= |texts|
    ensures forall i :: 0 <= i < |r| ==> r[i] != ""
  {
    if texts == [] then []
    else (if texts[0] == "" then [] else [texts[0]]) + NonEmptyTexts(texts[1..])
  }

  class AccessibilityService {
    var screenReaderEnabled: bool
    var hoverAnnouncementsEnabled: bool
    var synthesisAvailable: bool
    var speaking: bool
    var queue: seq<string>
    var lastHovered: string
    /** Hover-reset timers scheduled and not yet run; the source never cancels them. */
    var pendingHoverResets: nat
    /** Every utterance handed to the synthesiser, in order. */
    var utterances: seq<Utterance>
    /** Everything ever appended to the queue, and everything removed from its head. */
    ghost var enqueued: seq<string>
    ghost var dequeued: seq<string>

    /**
     * The queue is first-in first-out: what was removed, followed by what is still queued,
     * is exactly what was appended. Only non-empty texts are ever queued.
     */
    ghost predicate Valid()
      reads this
    {
      && enqueued == dequeued + queue
      && forall i :: 0 <= i < |queue| ==> queue[i] != ""
    }

    /** Only the queue grew, by `extra`; every other part of the service is as it was. */
    twostate predicate QueueGrewBy(extra: seq<string>)
      reads this
    {
      && queue == old(queue) + extra
      && enqueued == old(enqueued) + extra
      && dequeued == old(dequeued)
      && screenReaderEnabled == old(screenReaderEnabled)
      && hoverAnnouncementsEnabled == old(hoverAnnouncementsEnabled)
      && synthesisAvailable == old(synthesisAvailable)
      && speaking == old(speaking)
      && lastHovered == old(lastHovered)
      && pendingHoverResets == old(pendingHoverResets)
      && utterances == old(utterances)
    }

    constructor ()
      ensures Valid()
      ensures !screenReaderEnabled && hoverAnnouncementsEnabled
      ensures !synthesisAvailable && !speaking && queue == [] && lastHovered == ""
      ensures pendingHoverResets == 0 && utterances == [] && enqueued == []
    {
      screenReaderEnabled := false;
      hoverAnnouncementsEnabled := true;
      synthesisAvailable := false;
      speaking := false;
      queue := [];
      lastHovered := "";
      pendingHoverResets := 0;
      utterances := [];
      enqueued := [];
      dequeued := [];
    }

    /** The mount effect: the synthesiser becomes available when the browser has one. */
    method Mount(browserHasSynthesis: bool)
      modifies this`synthesisAvailable
      ensures synthesisAvailable == (old(synthesisAvailable) || browserHasSynthesis)
    {
      if browserHasSynthesis {
        synthesisAvailable := true;
      }
    }

    /** The condition under which the queue effect speaks. */
    predicate ReadyToDrain(): (ready: bool)
      reads this
      ensures ready ==> screenReaderEnabled && synthesisAvailable && !speaking && queue != []
      ensures screenReaderEnabled && synthesisAvailable && !speaking && queue != [] ==> ready
      ensures ready && Valid() ==> queue[0] != ""
    {
      screenReaderEnabled && synthesisAvailable && |queue| > 0 && !speaking
    }

    /**
     * One run of the queue effect: when ready it hands the head of the queue to the
     * synthesiser. It neither removes the head nor sets `speaking`; the utterance's own
     * start, end and error events do that.
     */
    method Drain() returns (spoken: Option<string>)
      requires Valid()
      modifies this`utterances
      ensures Valid()
      ensures spoken == (if ReadyToDrain() then Some(queue[0]) else None)
      ensures utterances == old(utterances) + (if spoken.Some? then [Utterance(spoken.value, Announcement)] else [])
    {
      if ReadyToDrain() {
        spoken := Some(queue[0]);
        utterances := utterances + [Utterance(queue[0], Announcement)];
      } else {
        spoken := None;
      }
    }

    /** The queued utterance's `onstart`. */
    method OnUtteranceStart()
      modifies this`speaking
      ensures speaking
    {
      speaking := true;
    }

    /** The queued utterance's `onend`: speaking stops and exactly the head leaves the queue. */
    method OnUtteranceEnd()
      requires Valid()
      modifies this`speaking, this`queue, this`dequeued
      ensures Valid() && !speaking
      ensures queue == if old(queue) == [] then [] else old(queue)[1..]
      ensures dequeued == old(dequeued) + (if old(queue) == [] then [] else [old(queue)[0]])
    {
      speaking := false;
      if queue != [] {
        dequeued := dequeued + [queue[0]];
        queue := queue[1..];
      }
    }

    /** The queued utterance's `onerror`: handled exactly like `onend`, so nothing is retried. */
    method OnUtteranceError()
      requires Valid()
      modifies this`speaking, this`queue, this`dequeued
      ensures Valid() && !speaking
      ensures queue == if old(queue) == [] then [] else old(queue)[1..]
      ensures dequeued == old(dequeued) + (if old(queue) == [] then [] else [old(queue)[0]])
    {
      OnUtteranceEnd();
    }

    /** A hover utterance's `onend`; it touches only the speaking flag. */
    method OnHoverUtteranceEnd()
      modifies this`speaking
      ensures !speaking
    {
      speaking := false;
    }

    /** `speakText`: appends a non-empty text at the tail while the screen reader is on. */
    method SpeakText(text: string)
      requires Valid()
      modifies this`queue, this`enqueued
      ensures Valid()
      ensures QueueGrewBy(if screenReaderEnabled && text != "" then [text] else [])
    {
      if screenReaderEnabled && text != "" {
        queue := queue + [text];
        enqueued := enqueued + [text];
      }
    }

    /** `speakAction`: queues the descriptive phrase for a truthy action while enabled. */
    method SpeakAction(action: Option<string>)
      requires Valid()
      modifies this`queue, this`enqueued
      ensures Valid()
      ensures QueueGrewBy(ActionSpeech(screenReaderEnabled, action))
    {
      if screenReaderEnabled && Truthy(action) {
        SpeakText(DescriptiveText(action.value));
      }
    }

    /** The gate of `announceHover`: both switches on, a description, and not the last one. */
    predicate HoverGate(description: string): (open: bool)
      reads this
      ensures open ==> screenReaderEnabled && hoverAnnouncementsEnabled
      ensures open ==> description != "" && description != lastHovered
      ensures screenReaderEnabled && hoverAnnouncementsEnabled && description != "" && description != lastHovered ==> open
    {
      screenReaderEnabled && hoverAnnouncementsEnabled && description != "" && description != lastHovered
    }

    /** The guard the pages put around `speakAction`: it is called only while the reader is on. */
    method SpeakActionIfEnabled(action: Option<string>)
      requires Valid()
      modifies this`queue, this`enqueued
      ensures Valid()
      ensures QueueGrewBy(ActionSpeech(screenReaderEnabled, action))
    {
      if screenReaderEnabled {
        SpeakAction(action);
      }
    }

    /**
     * `announceHover`: past the gate it remembers the description, schedules the reset
     * timer, and speaks it directly when nothing is being spoken. The queue is untouched.
     */
    method AnnounceHover(description: string) returns (spokeNow: bool)
      requires Valid()
      modifies this`lastHovered, this`pendingHoverResets, this`speaking, this`utterances
      ensures Valid() && queue == old(queue)
      ensures lastHovered == if old(HoverGate(description)) then description else old(lastHovered)
      ensures pendingHoverResets == old(pendingHoverResets) + if old(HoverGate(description)) then 1 else 0
      ensures spokeNow == (old(HoverGate(description)) && !old(speaking) && synthesisAvailable)
      ensures speaking == (old(speaking) || spokeNow)
      ensures utterances == old(utterances) + if spokeNow then [Utterance(description, HoverAnnouncement)] else []
    {
      spokeNow := false;
      if HoverGate(description) {
        lastHovered := description;
        if !speaking && synthesisAvailable {
          utterances := utterances + [Utterance(description, HoverAnnouncement)];
          speaking := true;
          spokeNow := true;
        }
        pendingHoverResets := pendingHoverResets + 1;
      }
    }

    /** A hover-reset timer fires: whatever was hovered last may be announced again. */
    method ResetLastHovered()
      requires pendingHoverResets > 0
      modifies this`lastHovered, this`pendingHoverResets
      ensures lastHovered == "" && pendingHoverResets == old(pendingHoverResets) - 1
    {
      lastHovered := "";
      pendingHoverResets := pendingHoverResets - 1;
    }

    /**
     * `toggleScreenReader`: flips the switch. Its announcement goes through `speakText`,
     * which still sees the switch as it was before the toggle, so nothing is queued.
     */
    method ToggleScreenReader()
      requires Valid()
      modifies this`screenReaderEnabled, this`queue, this`enqueued
      ensures Valid()
      ensures screenReaderEnabled == !old(screenReaderEnabled)
      ensures queue == old(queue) && enqueued == old(enqueued)
    {
      var newState := !screenReaderEnabled;
      if newState && synthesisAvailable {
        SpeakText(ScreenReaderEnabledMessage);
      }
      screenReaderEnabled := newState;
    }

    /** `toggleHoverAnnouncements`: flips the hover switch and, when the reader is on, says so. */
    method ToggleHoverAnnouncements()
      requires Valid()
      modifies this`hoverAnnouncementsEnabled, this`queue, this`enqueued
      ensures Valid()
      ensures hoverAnnouncementsEnabled == !old(hoverAnnouncementsEnabled)
      ensures screenReaderEnabled ==> queue == old(queue) + [if hoverAnnouncementsEnabled then HoverEnabledMessage else HoverDisabledMessage]
      ensures !screenReaderEnabled ==> queue == old(queue)
    {
      var newState := !hoverAnnouncementsEnabled;
      hoverAnnouncementsEnabled := newState;
      if screenReaderEnabled {
        SpeakText(if newState then HoverEnabledMessage else HoverDisabledMessage);
      }
    }
  }

  /**
   * With the reader on, texts announced one after another are spoken in the order they were
   * announced, each exactly once, whether its utterance ends normally or with an error.
   */
  method SpeakInOrder(texts: seq<string>, failing: set<nat>) returns (spoken: seq<string>)
    ensures spoken == NonEmptyTexts(texts)
  {
    var service := new AccessibilityService();
    service.Mount(true);
    service.ToggleScreenReader();
    AnnounceAll(service, texts);
    spoken := SpeakQueued(service, failing);
  }

  /** `speakText` for each text in turn: the non-empty ones are queued, in order. */
  method AnnounceAll(service: AccessibilityService, texts: seq<string>)
    requires service.Valid() && service.screenReaderEnabled
    modifies service`queue, service`enqueued
    ensures service.Valid() && service.queue == old(service.queue) + NonEmptyTexts(texts)
  {
    var i := 0;
    while i < |texts|
      invariant 0 <= i <= |texts|
      invariant service.Valid() && service.screenReaderEnabled
      invariant service.queue == old(service.queue) + NonEmptyTexts(texts[..i])
    {
      service.SpeakText(texts[i]);
      assert texts[..i + 1] == texts[..i] + [texts[i]];
      NonEmptyTextsAppend(texts[..i], texts[i]);
      i := i + 1;
    }
    assert texts[..i] == texts;
  }

  /**
   * The queue drained to the end, each utterance starting and then ending, or failing when
   * its position is in `failing`: every queued text is spoken once, in queue order.
   */
  method SpeakQueued(service: AccessibilityService, failing: set<nat>) returns (spoken: seq<string>)
    requires service.Valid() && service.screenReaderEnabled && service.synthesisAvailable && !service.speaking
    modifies service`speaking, service`queue, service`dequeued, service`utterances
    ensures service.Valid() && service.queue == [] && spoken == old(service.queue)
  {
    spoken := [];
    var n := 0;
    while service.queue != []
      invariant service.Valid() && service.screenReaderEnabled && service.synthesisAvailable
      invariant !service.speaking
      invariant spoken + service.queue == old(service.queue)
      decreases |service.queue|
    {
      var next := service.Drain();
      service.OnUtteranceStart();
      if n in failing {
        service.OnUtteranceError();
      } else {
        service.OnUtteranceEnd();
      }
      assert old(service.queue) == spoken + [next.value] + service.queue;
      spoken := spoken + [next.value];
      n := n + 1;
    }
  }

  /** The events that reach the speech queue. */
  datatype QueueEvent =
    | Announce(text: string)  // a `speakText` call
    | QueueEffect             // one run of the queue effect
    | Started                 // the queued utterance's `onstart`
    | Ended                   // its `onend`
    | Failed                  // its `onerror`
    | ToggledReader           // `toggleScreenReader`

  /**
   * One event. Whatever it is, the ghost history only grows, and a text is handed to the
   * synthesiser only by the queue effect, and then it is the head of the queue, which holds
   * what was appended after the texts already removed.
   */
  method QueueStep(service: AccessibilityService, event: QueueEvent) returns (spoken: Option<string>)
    requires service.Valid()
    modifies service
    ensures service.Valid() && old(service.enqueued) <= service.enqueued
    ensures |old(service.dequeued)| <= |service.dequeued|
    ensures spoken.Some? ==>
      && old(service.queue) != [] && spoken.value == old(service.queue)[0]
      && service.queue == old(service.queue) && service.dequeued == old(service.dequeued)
    ensures service.utterances == old(service.utterances) + if spoken.Some? then [Utterance(spoken.value, Announcement)] else []
  {
    spoken := None;
    match event {
      case Announce(text) => service.SpeakText(text);
      case QueueEffect => spoken := service.Drain();
      case Started => service.OnUtteranceStart();
      case Ended => service.OnUtteranceEnd();
      case Failed => service.OnUtteranceError();
      case ToggledReader => service.ToggleScreenReader();
    }
  }

  /** The utterances the queue effect makes for `texts`, in order. */
  function AsAnnouncements(texts: seq<string>): (us: seq<Utterance>)
    ensures |us| == |texts|
    ensures forall k :: 0 <= k < |texts| ==> us[k] == Utterance(texts[k], Announcement)
  {
    seq(|texts|, k requires 0 <= k < |texts| => Utterance(texts[k], Announcement))
  }

  lemma AsAnnouncementsAppend(texts: seq<string>, text: string)
    ensures AsAnnouncements(texts + [text]) == AsAnnouncements(texts) + [Utterance(text, Announcement)]
  {
    assert forall k :: 0 <= k < |texts| ==> (texts + [text])[k] == texts[k];
  }

  /**
   * Events arriving in any order. `queues[k]` is the queue when the k-th queued text was
   * handed to the synthesiser, and `positions[k]` how many texts had been removed by then.
   * Each issued text is the head of its queue, and that queue is what was appended from
   * position `positions[k]` on; the positions never decrease, so texts are issued in the
   * order they were appended. The same text may be issued twice, or one removed unissued,
   * when the events do not alternate effect, start and end.
   */
  method RunQueueEvents(service: AccessibilityService, events: seq<QueueEvent>)
    returns (issued: seq<string>, ghost queues: seq<seq<string>>, ghost positions: seq<nat>)
    requires service.Valid()
    modifies service
    ensures service.Valid() && old(service.enqueued) <= service.enqueued
    ensures |queues| == |positions| == |issued|
    ensures forall k :: 0 <= k < |issued| ==> queues[k] != [] && issued[k] == queues[k][0]
    ensures forall k :: 0 <= k < |issued| ==>
      |old(service.dequeued)| <= positions[k] <= |service.dequeued| && positions[k] + |queues[k]| <= |service.enqueued|
    ensures forall k, j :: 0 <= k < |issued| && 0 <= j < |queues[k]| ==>
      queues[k][j] == service.enqueued[positions[k] + j]
    ensures forall k, l :: 0 <= k < l < |issued| ==> positions[k] <= positions[l]
    ensures service.utterances == old(service.utterances) + AsAnnouncements(issued)
  {
    issued, queues, positions := [], [], [];
    var i := 0;
    while i < |events|
      invariant 0 <= i <= |events|
      invariant service.Valid() && old(service.enqueued) <= service.enqueued
      invariant |old(service.dequeued)| <= |service.dequeued|
      invariant |queues| == |positions| == |issued|
      invariant forall k :: 0 <= k < |issued| ==> queues[k] != [] && issued[k] == queues[k][0]
      invariant forall k :: 0 <= k < |issued| ==>
        |old(service.dequeued)| <= positions[k] <= |service.dequeued| && positions[k] + |queues[k]| <= |service.enqueued|
      invariant forall k, j :: 0 <= k < |issued| && 0 <= j < |queues[k]| ==>
        queues[k][j] == service.enqueued[positions[k] + j]
      invariant forall k, l :: 0 <= k < l < |issued| ==> positions[k] <= positions[l]
      invariant service.utterances == old(service.utterances) + AsAnnouncements(issued)
    {
      ghost var queue, removed := service.queue, |service.dequeued|;
      var spoken := QueueStep(service, events[i]);
      if spoken.Some? {
        assert forall j :: 0 <= j < |queue| ==> queue[j] == service.enqueued[removed + j];
        AsAnnouncementsAppend(issued, spoken.value);
        issued, queues, positions := issued + [spoken.value], queues + [queue], positions + [removed];
      }
      i := i + 1;
    }
  }

  lemma {:induction false} NonEmptyTextsAppend(texts: seq<string>, t: string)
    ensures NonEmptyTexts(texts + [t]) == NonEmptyTexts(texts) + (if t == "" then [] else [t])
  {
    if texts == [] {
      assert texts + [t] == [t];
      assert [t][1..] == [];
    } else {
      assert (texts + [t])[1..] == texts[1..] + [t];
      NonEmptyTextsAppend(texts[1..], t);
    }
  }

  /**
   * The queue effect does not mark the service as speaking; the utterance's `onstart` does.
   * When a second text is queued and the effect runs again before that event arrives, the
   * head is handed to the synthesiser a second time.
   */
  method DrainBeforeStartRepeatsHead(first: string, second: string) returns (issued: seq<Utterance>)
    requires first != "" && second != ""
    ensures issued == [Utterance(first, Announcement), Utterance(first, Announcement)]
  {
    var service := new AccessibilityService();
    service.Mount(true);
    service.ToggleScreenReader();
    service.SpeakText(first);
    var a := service.Drain();
    service.SpeakText(second);
    var b := service.Drain();
    issued := service.utterances;
  }

  /**
   * Hovering the same element twice in a row announces it once; once the reset timer has
   * run and the first utterance has ended, hovering it again announces it again. None of
   * this touches the queue.
   */
  method HoverAgainAfterReset(description: string) returns (announced: seq<bool>, queued: seq<string>)
    requires description != ""
    ensures announced == [true, false, true]
    ensures queued == []
  {
    var service := new AccessibilityService();
    service.Mount(true);
    service.ToggleScreenReader();
    var first := service.AnnounceHover(description);
    var second := service.AnnounceHover(description);
    service.OnHoverUtteranceEnd();
    service.ResetLastHovered();
    var third := service.AnnounceHover(description);
    announced, queued := [first, second, third], service.queue;
  }
}
