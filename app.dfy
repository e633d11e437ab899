/**
 * The detection loop of the app: the camera switch, the detection switch, the
 * timer-driven frame analysis and the effect that starts and stops the timer.
 *
 * Each method is one user action or one timer tick, run to completion. The
 * state updates an action makes are applied together, and then the detection
 * effect runs once if one of the values it depends on changed: the detection
 * flag, the interval, or the frame handler (which is rebuilt whenever the camera
 * flag or the last spoken message changes). The camera, the clock and the
 * vision service are outside the model: the captured frame and the service's
 * reply are parameters of a tick.
 */
module App {
  import opened Wrappers
  import opened Types
  import opened Ranking
  import opened Analyzer
  import opened Formatter
  import opened Speech

  /** The status shown to the user. `Starting` is declared but no action ever sets it. */
  datatype Status = Idle | Starting | Running | Processing | Error

  const AnalysisErrorPhrase := "An error occurred during analysis."
  const DefaultInterval := 3000

  /** The sentence to speak for an analysed response, or nothing when the response is empty or repeats the last one. */
  function Announcement(response: DetectionResponse, last: string): (r: Option<string>)
    ensures r.Some? ==> r.value == FormatMessage(response) && r.value != last
    ensures r.None? <==> (response.objects == [] && response.summary == "") || FormatMessage(response) == last
  {
    if response.objects != [] || response.summary != "" then
      var message := FormatMessage(response);
      if message != last then Some(message) else None
    else None
  }

  /** A response identical to the one just spoken is not spoken again. */
  lemma RepeatIsSilent(response: DetectionResponse)
    ensures Announcement(response, FormatMessage(response)) == None
  {
  }

  /** Two ticks in a row with the same response speak once: the second finds its message already spoken. */
  lemma SpokenOnce(response: DetectionResponse, last: string)
    requires Announcement(response, last).Some?
    ensures Announcement(response, Announcement(response, last).value) == None
  {
    RepeatIsSilent(response);
  }

  /** A summary without objects is spoken as it is, unless it was the last thing said. */
  lemma SummaryAnnounced(response: DetectionResponse, last: string)
    requires response.objects == [] && response.summary != "" && response.summary != last
    ensures Announcement(response, last) == Some(response.summary)
  {
  }

  /** An empty result says nothing, even though the formatter would produce its fallback sentence. */
  lemma EmptyResultSilent(response: DetectionResponse, last: string)
    requires response.objects == [] && response.summary == ""
    ensures Announcement(response, last) == None
    ensures FormatMessage(response) == NothingDetected
  {
  }

  /** One nameless object at medium distance in the center passes the guard, so the fallback sentence is spoken. */
  lemma NamelessDefaultSpoken(o: DetectedObject, last: string)
    requires o.name == "" && o.distance == Distance.Medium && o.position == Center
    requires last != NothingDetected
    ensures Announcement(DetectionResponse([o], ""), last) == Some(NothingDetected)
  {
    NamelessDefaultFallsBack(o, "");
  }

  /** The status the detection effect leaves: running while detecting, otherwise running falls back to idle. */
  function EffectStatus(detecting: bool, status: Status): (r: Status)
    ensures detecting ==> r == Running
    ensures !detecting && status == Running ==> r == Idle
    ensures !detecting && status != Running ==> r == status
  {
    if detecting then Running
    else if status == Running then Idle
    else status
  }

  /** A tick does nothing with the camera off or when the capture yields no frame (null or an empty string). */
  predicate Skipped(cameraOn: bool, frame: Option<string>)
  {
    !cameraOn || frame.None? || frame.value == ""
  }

  class DetectionApp {
    var isDetecting: bool
    var isCameraOn: bool
    var status: Status
    var lastMessage: string
    var detectionInterval: int
    /** The period of the armed interval timer, if one is armed. */
    var timer: Option<int>
    const speech: SpeechEngine

    /** Detection needs the camera, a timer is armed exactly while detecting, and nothing sets `Starting`. */
    predicate Valid()
      reads this
    {
      && (isDetecting ==> isCameraOn)
      && timer == (if isDetecting then Some(detectionInterval) else None)
      && status != Starting
    }

    /** The first render: everything off, and the mounting effect finds nothing to stop. */
    constructor (voices: seq<Voice>)
      ensures Valid()
      ensures !isDetecting && !isCameraOn && status == Idle && lastMessage == ""
      ensures detectionInterval == DefaultInterval && timer == None
      ensures fresh(speech) && speech.voices == voices && speech.queue == [] && speech.calls == []
    {
      isDetecting := false;
      isCameraOn := false;
      status := Idle;
      lastMessage := "";
      detectionInterval := DefaultInterval;
      timer := None;
      speech := new SpeechEngine(voices);
    }

    /**
     * The detection effect: the previous timer is cleared, then while detecting
     * the status becomes running and a timer is armed with the current interval;
     * otherwise running falls back to idle and speech is cancelled.
     */
    method RunEffect()
      modifies this, speech
      ensures isDetecting == old(isDetecting) && isCameraOn == old(isCameraOn)
      ensures lastMessage == old(lastMessage) && detectionInterval == old(detectionInterval)
      ensures timer == (if isDetecting then Some(detectionInterval) else None)
      ensures status == EffectStatus(isDetecting, old(status))
      ensures isDetecting ==> speech.queue == old(speech.queue) && speech.calls == old(speech.calls)
      ensures !isDetecting ==> speech.queue == [] && speech.calls == old(speech.calls) + CancelCalls(old(speech.Speaking()))
    {
      timer := None;
      if isDetecting {
        status := Running;
        timer := Some(detectionInterval);
      } else {
        if status == Running {
          status := Idle;
        }
        speech.Cancel();
      }
    }

    /**
     * The camera button. Switching off stops detection and shows idle; switching
     * on always succeeds, because the camera hook reports its own failures
     * instead of raising them. Either way the camera flag changes, so the effect
     * runs with detection off and cancels speech.
     */
    method ToggleCamera()
      requires Valid()
      modifies this, speech
      ensures Valid()
      ensures isCameraOn == !old(isCameraOn) && !isDetecting && timer == None
      ensures status == (if old(isCameraOn) then Idle else EffectStatus(false, old(status)))
      ensures lastMessage == old(lastMessage) && detectionInterval == old(detectionInterval)
      ensures speech.queue == [] && speech.calls == old(speech.calls) + CancelCalls(old(speech.Speaking()))
    {
      if isCameraOn {
        isCameraOn := false;
        isDetecting := false;
        status := Idle;
      } else {
        isCameraOn := true;
      }
      RunEffect();
    }

    /**
     * The play/pause button: switches the camera on first when it is off, then
     * flips detection; the effect starts or stops the timer.
     */
    method ToggleDetection()
      requires Valid()
      modifies this, speech
      ensures Valid()
      ensures isCameraOn && isDetecting == !old(isDetecting)
      ensures status == EffectStatus(isDetecting, old(status))
      ensures lastMessage == old(lastMessage) && detectionInterval == old(detectionInterval)
      ensures isDetecting ==> speech.queue == old(speech.queue) && speech.calls == old(speech.calls)
      ensures !isDetecting ==> speech.queue == [] && speech.calls == old(speech.calls) + CancelCalls(old(speech.Speaking()))
    {
      if !isCameraOn {
        isCameraOn := true;
      }
      isDetecting := !isDetecting;
      RunEffect();
    }

    /** The interval setting; a new value re-runs the effect, which re-arms the timer or cancels speech. */
    method SetDetectionInterval(ms: int)
      requires Valid()
      modifies this, speech
      ensures Valid()
      ensures detectionInterval == ms
      ensures isDetecting == old(isDetecting) && isCameraOn == old(isCameraOn) && lastMessage == old(lastMessage)
      ensures ms == old(detectionInterval) ==> status == old(status) && speech.queue == old(speech.queue) && speech.calls == old(speech.calls)
      ensures ms != old(detectionInterval) ==> status == EffectStatus(isDetecting, old(status))
      ensures ms != old(detectionInterval) && !isDetecting ==> speech.queue == [] && speech.calls == old(speech.calls) + CancelCalls(old(speech.Speaking()))
      ensures ms != old(detectionInterval) && isDetecting ==> speech.queue == old(speech.queue) && speech.calls == old(speech.calls)
    {
      if ms != detectionInterval {
        detectionInterval := ms;
        RunEffect();
      }
    }

    /**
     * The success path of a tick: a new, non-empty message is spoken and
     * remembered, and the status returns to running. A new message rebuilds the
     * frame handler, so the effect runs again: while detecting it re-arms the
     * timer; after detection was switched off (a tick that was already under
     * way) it turns running into idle and cancels the message just spoken.
     */
    method Announce(response: DetectionResponse)
      requires Valid()
      modifies this, speech
      ensures Valid()
      ensures isDetecting == old(isDetecting) && isCameraOn == old(isCameraOn)
      ensures detectionInterval == old(detectionInterval) && timer == old(timer)
      ensures var a := Announcement(response, old(lastMessage));
        && lastMessage == (if a.Some? then a.value else old(lastMessage))
        && (a.None? ==> status == Running && speech.queue == old(speech.queue) && speech.calls == old(speech.calls))
        && (a.Some? ==>
              var u := UtteranceFor(speech.voices, a.value);
              && status == EffectStatus(isDetecting, Running)
              && speech.queue == (if isDetecting then [u] else [])
              && speech.calls == old(speech.calls) + SpeakCalls(old(speech.Speaking()), u) + CancelCalls(!isDetecting))
    {
      var a := Announcement(response, lastMessage);
      if a.Some? {
        speech.Speak(a.value);
        lastMessage := a.value;
      }
      status := Running;
      if a.Some? {
        RunEffect();
      }
    }

    /**
     * One timer tick. Nothing happens without the camera or a frame. Otherwise
     * the status shows processing while the frame is analysed; on success the
     * ranked response is announced, on failure the status is an error and a
     * fixed phrase is spoken.
     */
    method ProcessFrame(frame: Option<string>, reply: ServiceReply)
      requires Valid()
      modifies this, speech
      ensures Valid()
      ensures isDetecting == old(isDetecting) && isCameraOn == old(isCameraOn)
      ensures detectionInterval == old(detectionInterval) && timer == old(timer)
      ensures Skipped(old(isCameraOn), frame) ==>
        && status == old(status) && lastMessage == old(lastMessage)
        && speech.queue == old(speech.queue) && speech.calls == old(speech.calls)
      ensures !Skipped(old(isCameraOn), frame) && reply.Failed? ==>
        var u := UtteranceFor(speech.voices, AnalysisErrorPhrase);
        && status == Error && lastMessage == old(lastMessage)
        && speech.queue == [u] && speech.calls == old(speech.calls) + SpeakCalls(old(speech.Speaking()), u)
      ensures !Skipped(old(isCameraOn), frame) && reply.Parsed? ==>
        var a := Announcement(DetectionResponse(Ranked(reply.objects), reply.summary), old(lastMessage));
        && lastMessage == (if a.Some? then a.value else old(lastMessage))
        && (a.None? ==> status == Running && speech.queue == old(speech.queue) && speech.calls == old(speech.calls))
        && (a.Some? ==>
              var u := UtteranceFor(speech.voices, a.value);
              && status == EffectStatus(isDetecting, Running)
              && speech.queue == (if isDetecting then [u] else [])
              && speech.calls == old(speech.calls) + SpeakCalls(old(speech.Speaking()), u) + CancelCalls(!isDetecting))
    {
      if !isCameraOn {
        return;
      }
      if frame.None? || frame.value == "" {
        return;
      }
      status := Processing;
      var sent, result := AnalyzeImage(frame.value, reply);
      if result.Success? {
        Announce(result.value);
      } else {
        status := Error;
        speech.Speak(AnalysisErrorPhrase);
      }
    }
  }
}
