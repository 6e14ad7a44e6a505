/** The focus debouncer: immediate gaze ("looking") versus debounced focus,
    with millisecond accumulators that must reach a threshold before the
    debounced state flips, and the playback reaction each sample calls for. */
module Focus {

  /** The classifier's four outcomes; a frame without a face is
      `FaceNotDetected`. */
  datatype Gaze = LookingLeft | LookingRight | LookingCenter | FaceNotDetected

  datatype Mode = Free | PauseMode | QuestionMode

  const FocusThreshold: nat := 2000
  const UnfocusThreshold: nat := 2000

  /** `isLooking`, `userFocused`, `focusedTime` and `unfocusedTime`. */
  datatype FocusState = FocusState(isLooking: bool, userFocused: bool, focusedTime: int, unfocusedTime: int)

  const Initial := FocusState(false, false, 0, 0)

  /** What holds between samples: both accumulators are below their
      threshold, at most one is running, and a running accumulator always
      counts towards the opposite of the current debounced state. */
  predicate Settled(s: FocusState) {
    && 0 <= s.focusedTime < FocusThreshold
    && 0 <= s.unfocusedTime < UnfocusThreshold
    && (s.focusedTime == 0 || s.unfocusedTime == 0)
    && (s.focusedTime > 0 ==> !s.userFocused)
    && (s.unfocusedTime > 0 ==> s.userFocused)
  }

  /** A centred gaze counts as centred only while the session is not paused. */
  predicate Centred(gaze: Gaze, sessionPaused: bool) {
    gaze == LookingCenter && !sessionPaused
  }

  /** One processed gaze sample `delta` milliseconds after the previous one. */
  function Step(s: FocusState, gaze: Gaze, sessionPaused: bool, delta: nat): (r: FocusState)
    ensures r.isLooking == Centred(gaze, sessionPaused)
    ensures Centred(gaze, sessionPaused) ==> r.unfocusedTime == 0
    ensures !Centred(gaze, sessionPaused) ==> r.focusedTime == 0
    // focus is gained only by a centred sample that takes the focus accumulator to the threshold
    ensures (!s.userFocused && r.userFocused) <==>
      (!s.userFocused && Centred(gaze, sessionPaused) && s.focusedTime + delta >= FocusThreshold)
    // focus is lost only by an off-centre sample that takes the unfocus accumulator to the threshold
    ensures (s.userFocused && !r.userFocused) <==>
      (s.userFocused && !Centred(gaze, sessionPaused) && s.unfocusedTime + delta >= UnfocusThreshold)
    ensures r.userFocused != s.userFocused ==> r.focusedTime == 0 && r.unfocusedTime == 0
    ensures Settled(s) ==> Settled(r)
  {
    if Centred(gaze, sessionPaused) then
      if !s.userFocused then
        var acc := s.focusedTime + delta;
        if acc >= FocusThreshold then FocusState(true, true, 0, 0)
        else FocusState(true, false, acc, 0)
      else FocusState(true, true, 0, 0)
    else
      if s.userFocused then
        var acc := s.unfocusedTime + delta;
        if acc >= UnfocusThreshold then FocusState(false, false, 0, 0)
        else FocusState(false, true, 0, acc)
      else FocusState(false, false, 0, s.unfocusedTime)
  }

  /** The player-facing consequence of one processed sample. */
  datatype Reaction = NoReaction | ResumePlayback | PausePlayback | AskQuestion

  predicate BecameFocused(s: FocusState, gaze: Gaze, sessionPaused: bool, delta: nat) {
    !s.userFocused && Step(s, gaze, sessionPaused, delta).userFocused
  }

  predicate BecameUnfocused(s: FocusState, gaze: Gaze, sessionPaused: bool, delta: nat) {
    s.userFocused && !Step(s, gaze, sessionPaused, delta).userFocused
  }

  /** The side effect `handleVideoPlayback` takes for a sample, given the
      mode, whether the player exists and whether a question or decision
      modal is open. Resuming respects the modals; pausing on loss of focus
      does not. While never focused, every off-centre sample pauses (pause
      mode) or asks a question (question mode). */
  function ReactionTo(mode: Mode, s: FocusState, gaze: Gaze, sessionPaused: bool, delta: nat,
                      playerReady: bool, modalOpen: bool): (e: Reaction)
    ensures mode == Free || !playerReady ==> e == NoReaction
    ensures e == ResumePlayback <==>
      mode == PauseMode && playerReady && !modalOpen && BecameFocused(s, gaze, sessionPaused, delta)
    ensures e == PausePlayback <==>
      mode == PauseMode && playerReady &&
      (BecameUnfocused(s, gaze, sessionPaused, delta) || (!s.userFocused && gaze != LookingCenter && !modalOpen))
    ensures e == AskQuestion <==>
      mode == QuestionMode && playerReady && !modalOpen &&
      (BecameUnfocused(s, gaze, sessionPaused, delta) || (!s.userFocused && gaze != LookingCenter))
  {
    var r := Step(s, gaze, sessionPaused, delta);
    if Centred(gaze, sessionPaused) then
      if !s.userFocused && r.userFocused && mode == PauseMode && playerReady && !modalOpen
      then ResumePlayback else NoReaction
    else if s.userFocused then
      if r.userFocused then NoReaction
      else if mode == PauseMode && playerReady then PausePlayback
      else if mode == QuestionMode && playerReady && !modalOpen then AskQuestion
      else NoReaction
    else
      if mode == PauseMode && playerReady && gaze != LookingCenter && !modalOpen then PausePlayback
      else if mode == QuestionMode && playerReady && !modalOpen && gaze != LookingCenter then AskQuestion
      else NoReaction
  }

  // Runs of samples.

  datatype Sample = Sample(gaze: Gaze, delta: nat)

  function Run(s: FocusState, sessionPaused: bool, samples: seq<Sample>): FocusState
    decreases |samples|
  {
    if samples == [] then s
    else Run(Step(s, samples[0].gaze, sessionPaused, samples[0].delta), sessionPaused, samples[1..])
  }

  /** How many samples of a run flip the debounced state to focused. */
  function FocusGains(s: FocusState, sessionPaused: bool, samples: seq<Sample>): nat
    decreases |samples|
  {
    if samples == [] then 0
    else
      var here := if BecameFocused(s, samples[0].gaze, sessionPaused, samples[0].delta) then 1 else 0;
      here + FocusGains(Step(s, samples[0].gaze, sessionPaused, samples[0].delta), sessionPaused, samples[1..])
  }

  /** How many samples of a run flip the debounced state to unfocused. */
  function FocusLosses(s: FocusState, sessionPaused: bool, samples: seq<Sample>): nat
    decreases |samples|
  {
    if samples == [] then 0
    else
      var here := if BecameUnfocused(s, samples[0].gaze, sessionPaused, samples[0].delta) then 1 else 0;
      here + FocusLosses(Step(s, samples[0].gaze, sessionPaused, samples[0].delta), sessionPaused, samples[1..])
  }

  function Duration(samples: seq<Sample>): nat
    decreases |samples|
  {
    if samples == [] then 0 else samples[0].delta + Duration(samples[1..])
  }

  predicate AllGaze(samples: seq<Sample>, g: Gaze) {
    forall i :: 0 <= i < |samples| ==> samples[i].gaze == g
  }

  predicate AllOffCentre(samples: seq<Sample>) {
    forall i :: 0 <= i < |samples| ==> samples[i].gaze != LookingCenter
  }

  /** Once focused, centred samples keep the viewer focused and flip nothing. */
  lemma {:induction false} CentredRunStaysFocused(s: FocusState, samples: seq<Sample>)
    requires s.userFocused
    requires AllGaze(samples, LookingCenter)
    ensures Run(s, false, samples).userFocused
    ensures FocusGains(s, false, samples) == 0 && FocusLosses(s, false, samples) == 0
    decreases |samples|
  {
    if samples != [] {
      CentredRunStaysFocused(Step(s, samples[0].gaze, false, samples[0].delta), samples[1..]);
    }
  }

  /** A run of centred samples in an unpaused session, starting unfocused,
      ends focused exactly when the accumulated time plus the run's duration
      reaches the threshold, and then focus was gained exactly once. */
  lemma {:induction false} CentredRunFocusesOnce(s: FocusState, samples: seq<Sample>)
    requires !s.userFocused && 0 <= s.focusedTime < FocusThreshold
    requires AllGaze(samples, LookingCenter)
    ensures Run(s, false, samples).userFocused <==> s.focusedTime + Duration(samples) >= FocusThreshold
    ensures FocusGains(s, false, samples) == if s.focusedTime + Duration(samples) >= FocusThreshold then 1 else 0
    ensures FocusLosses(s, false, samples) == 0
    decreases |samples|
  {
    if samples != [] {
      var next := Step(s, samples[0].gaze, false, samples[0].delta);
      assert Duration(samples) == samples[0].delta + Duration(samples[1..]);
      if next.userFocused {
        CentredRunStaysFocused(next, samples[1..]);
      } else {
        CentredRunFocusesOnce(next, samples[1..]);
      }
    }
  }

  /** Once unfocused, off-centre samples keep the viewer unfocused. */
  lemma {:induction false} OffCentreRunStaysUnfocused(s: FocusState, sessionPaused: bool, samples: seq<Sample>)
    requires !s.userFocused
    requires AllOffCentre(samples)
    ensures !Run(s, sessionPaused, samples).userFocused
    ensures FocusGains(s, sessionPaused, samples) == 0 && FocusLosses(s, sessionPaused, samples) == 0
    decreases |samples|
  {
    if samples != [] {
      OffCentreRunStaysUnfocused(Step(s, samples[0].gaze, sessionPaused, samples[0].delta), sessionPaused, samples[1..]);
    }
  }

  /** A run of off-centre samples starting focused ends unfocused exactly
      when the accumulated time plus the run's duration reaches the
      threshold, and then focus was lost exactly once. */
  lemma {:induction false} OffCentreRunUnfocusesOnce(s: FocusState, sessionPaused: bool, samples: seq<Sample>)
    requires s.userFocused && 0 <= s.unfocusedTime < UnfocusThreshold
    requires AllOffCentre(samples)
    ensures !Run(s, sessionPaused, samples).userFocused <==> s.unfocusedTime + Duration(samples) >= UnfocusThreshold
    ensures FocusLosses(s, sessionPaused, samples) == if s.unfocusedTime + Duration(samples) >= UnfocusThreshold then 1 else 0
    ensures FocusGains(s, sessionPaused, samples) == 0
    decreases |samples|
  {
    if samples != [] {
      var next := Step(s, samples[0].gaze, sessionPaused, samples[0].delta);
      assert Duration(samples) == samples[0].delta + Duration(samples[1..]);
      if !next.userFocused {
        OffCentreRunStaysUnfocused(next, sessionPaused, samples[1..]);
      } else {
        OffCentreRunUnfocusesOnce(next, sessionPaused, samples[1..]);
      }
    }
  }

  /** Every sample of a run keeps the between-samples invariant. */
  lemma {:induction false} RunKeepsSettled(s: FocusState, sessionPaused: bool, samples: seq<Sample>)
    requires Settled(s)
    ensures Settled(Run(s, sessionPaused, samples))
    decreases |samples|
  {
    if samples != [] {
      RunKeepsSettled(Step(s, samples[0].gaze, sessionPaused, samples[0].delta), sessionPaused, samples[1..]);
    }
  }

  /** In pause mode with the player present and no modal open, once the
      viewer is unfocused each further off-centre sample pauses the player
      again: the pause is repeated, not issued once. */
  lemma PauseRepeatsWhileUnfocused(s: FocusState, gaze: Gaze, sessionPaused: bool, delta: nat)
    requires !s.userFocused && gaze != LookingCenter
    ensures ReactionTo(PauseMode, s, gaze, sessionPaused, delta, true, false) == PausePlayback
    ensures !Step(s, gaze, sessionPaused, delta).userFocused
  {
  }
}
