/** The focus-tracking session controller of the video player: gaze samples
    drive the debouncer and the mode's playback reactions, a question prompt
    freezes the session until the viewer decides, a periodic tick records one
    focus bucket, and the end of the session yields the summary. */
module Session {
  import opened Wrappers
  import opened Answers
  import opened QuestionBank
  import opened Questions
  import opened Focus
  import opened Timecode
  import opened Summary

  /** Calls made on the embedded player. */
  datatype PlayerCall = Play | Pause | SeekTo(seconds: nat)

  /** The question on screen (`currentQuestion`): a bank question's id, or
      `None` for the fallback question. */
  datatype ShownQuestion = ShownQuestion(id: Option<string>, prompt: string, rewindAt: string, answers: seq<Answer>)

  /** The fallback question as it is shown after its shuffle. */
  const DefaultShown := ShownQuestion(None, "Are you with us?", "00:00:00", Shuffle(DefaultAnswers).shown)

  /** The ids of the bank questions, in bank order. */
  function IdsOf(bank: seq<Question>): (ids: seq<string>)
    ensures |ids| == |bank|
    ensures forall k :: 0 <= k < |bank| ==> ids[k] == bank[k].id
  {
    seq(|bank|, i requires 0 <= i < |bank| => bank[i].id)
  }

  /** The question `getRandomQuestion` returns from `bank` for the random
      values `draws`: a bank member, never the last prompted one when there
      is a choice but the question of the first draw that misses it, and
      none exactly when the bank is empty or every draw lands on the last
      prompted id. */
  function Drawn(bank: seq<Question>, last: Option<string>, draws: seq<real>): (r: Option<Question>)
    requires |draws| >= MaxAttempts && UnitInterval(draws)
    ensures r.Some? ==> r.value in bank
    ensures |bank| == 1 ==> r == Some(bank[0])
    ensures |bank| >= 2 && r.Some? ==> Some(r.value.id) != last
    ensures r.None? <==>
      (bank == [] || (|bank| >= 2 && forall k :: 0 <= k < MaxAttempts ==> Some(bank[Pick(draws[k], |bank|)].id) == last))
    ensures |bank| >= 2 && r.Some? ==>
      exists k :: 0 <= k < MaxAttempts && r.value == bank[Pick(draws[k], |bank|)]
        && forall j :: 0 <= j < k ==> Some(bank[Pick(draws[j], |bank|)].id) == last
  {
    SelectSpec(IdsOf(bank), last, draws);
    match Select(IdsOf(bank), last, draws)
    case None => None
    case Some(i) => Some(bank[i])
  }

  /** The repeat guard of `promptQuestion`: a matched question whose id is
      the last prompted id is replaced by a fresh draw. */
  function AfterRepeatGuard(bank: seq<Question>, last: Option<string>, matched: Option<Question>, draws: seq<real>): (r: Option<Question>)
    requires matched.Some? ==> matched.value in bank
    requires |draws| >= MaxAttempts && UnitInterval(draws)
    ensures r.Some? ==> r.value in bank
    ensures matched.None? ==> r.None?
    ensures matched.Some? && (Some(matched.value.id) != last || |bank| == 1) ==> r == matched
    ensures |bank| >= 2 && r.Some? ==> Some(r.value.id) != last
  {
    if matched.Some? && Some(matched.value.id) == last then Drawn(bank, last, draws) else matched
  }

  /** The question a prompt from the gaze path ends up with: a draw with
      the first `MaxAttempts` random values, then the repeat guard with the
      rest. With two or more questions it is the question of the first of
      the first ten draws that misses the last prompted id; the only
      question of a one-question bank is prompted every time. */
  function Prompted(bank: seq<Question>, last: Option<string>, draws: seq<real>): (r: Option<Question>)
    requires |draws| >= 2 * MaxAttempts && UnitInterval(draws)
    ensures r.Some? ==> r.value in bank
    ensures bank == [] ==> r.None?
    ensures |bank| == 1 ==> r == Some(bank[0])
    ensures |bank| >= 2 && r.Some? ==> Some(r.value.id) != last
    ensures |bank| >= 2 ==>
      (r.None? <==> forall k :: 0 <= k < MaxAttempts ==> Some(bank[Pick(draws[k], |bank|)].id) == last)
    ensures |bank| >= 2 && r.Some? ==>
      exists k :: 0 <= k < MaxAttempts && r.value == bank[Pick(draws[k], |bank|)]
        && forall j :: 0 <= j < k ==> Some(bank[Pick(draws[j], |bank|)].id) == last
  {
    assert forall k :: 0 <= k < MaxAttempts ==> draws[..MaxAttempts][k] == draws[k];
    AfterRepeatGuard(bank, last, Drawn(bank, last, draws[..MaxAttempts]), draws[MaxAttempts..])
  }

  /** What a prompt of the chosen question `c` shows, `before` being its
      answer list when it is chosen: the shuffled list under the question's
      own id, or the fallback question when there is no question or its
      list is empty. Either way a correct answer comes first. */
  function ShownFor(c: Option<Question>, before: seq<Answer>): (r: ShownQuestion)
    ensures r.answers != [] && r.answers[0].correct
    ensures r.id.Some? <==> c.Some? && before != []
    ensures r.id.None? ==> r == DefaultShown
    ensures r.id.Some? ==>
      && r.id == Some(c.value.id) && r.prompt == c.value.prompt && r.rewindAt == c.value.rewindAt
      && |r.answers| == |before| && multiset(Keys(r.answers)) == multiset(Keys(before))
  {
    if c.None? || before == [] then
      ShuffleSurfacesCorrect(DefaultAnswers);
      DefaultShown
    else
      ShuffleSurfacesCorrect(before);
      ShownQuestion(Some(c.value.id), c.value.prompt, c.value.rewindAt, Shuffle(before).shown)
  }

  class VideoSession {
    const mode: Mode
    /** `startTime`, milliseconds. */
    const startTime: int
    var sessionPaused: bool
    /** The `sessionPaused` prop as it was at mount: `onResults` is
        registered once, by the mount effect, so the gaze handler it calls
        keeps seeing this value however the prop changes later. */
    const pausedAtMount: bool
    /** Whether `playerRef.current` is set. */
    var playerReady: bool

    var isLooking: bool
    var userFocused: bool
    var focusedTime: int
    var unfocusedTime: int
    var lastGazeTime: int

    /** `isFrozenRef`. */
    var frozen: bool
    var showQuestionModal: bool
    var showDecisionModal: bool
    var isAnswerCorrect: Option<bool>
    var currentQuestion: Option<ShownQuestion>
    /** `lastPromptedQuestionIdRef`; `None` is `null`. */
    var lastPromptedId: Option<string>
    /** `questionsRef`. */
    var bank: seq<Question>

    /** The 0/1 focus buckets. */
    var focusData: seq<int>
    /** Whether the bucket interval is still scheduled. */
    var intervalRunning: bool
    /** Every call made on the player, oldest first. */
    var playerLog: seq<PlayerCall>

    function Focus(): FocusState
      reads this
    {
      FocusState(isLooking, userFocused, focusedTime, unfocusedTime)
    }

    ghost function BankArrays(): set<object>
      reads this
    {
      set q | q in bank :: q.answers
    }

    /** The controller's invariant. The debouncer is settled between samples;
        the session is frozen exactly while the question or the decision
        modal is open (never both); a shown question has a correct answer
        first and its id is the last prompted id; no two bank questions
        share an answer array. */
    ghost predicate Valid()
      reads this, bank
    {
      && Settled(Focus())
      && (forall q :: q in bank ==> q.Valid())
      && (forall p, q :: p in bank && q in bank && p != q ==> p.answers != q.answers)
      && Binary(focusData)
      && frozen == (showQuestionModal || showDecisionModal)
      && !(showQuestionModal && showDecisionModal)
      && (frozen ==> currentQuestion.Some?)
      && (currentQuestion.Some? ==>
            && currentQuestion.value.answers != []
            && currentQuestion.value.answers[0].correct
            && lastPromptedId == currentQuestion.value.id)
    }

    /** Mounting the player component at wall-clock time `now`. */
    constructor (mode: Mode, sessionPaused: bool, now: int)
      ensures Valid()
      ensures this.mode == mode && this.sessionPaused == sessionPaused && pausedAtMount == sessionPaused
      ensures startTime == now
      ensures !playerReady && Focus() == Initial && lastGazeTime == now
      ensures !frozen && !showQuestionModal && !showDecisionModal && currentQuestion.None?
      ensures lastPromptedId.None? && bank == [] && focusData == [] && intervalRunning && playerLog == []
    {
      this.mode, this.sessionPaused, pausedAtMount, startTime := mode, sessionPaused, sessionPaused, now;
      playerReady := false;
      isLooking, userFocused, focusedTime, unfocusedTime := false, false, 0, 0;
      lastGazeTime := now;
      frozen, showQuestionModal, showDecisionModal := false, false, false;
      isAnswerCorrect, currentQuestion, lastPromptedId := None, None, None;
      bank, focusData, intervalRunning, playerLog := [], [], true, [];
    }

    /** The player becomes ready: it is paused or started to match the
        session's paused flag. */
    method PlayerReady()
      requires Valid()
      modifies this`playerReady, this`playerLog
      ensures Valid() && playerReady
      ensures playerLog == old(playerLog) + [if sessionPaused then Pause else Play]
    {
      playerReady := true;
      playerLog := playerLog + [if sessionPaused then Pause else Play];
    }

    /** The host pauses or resumes the session; a ready player follows. */
    method SessionPausedChanged(paused: bool)
      requires Valid()
      modifies this`sessionPaused, this`playerLog
      ensures Valid() && sessionPaused == paused
      ensures playerLog == old(playerLog) + (if playerReady then [if paused then Pause else Play] else [])
    {
      sessionPaused := paused;
      if playerReady {
        playerLog := playerLog + [if paused then Pause else Play];
      }
    }

    /** The question fetch settles: the payload is normalised and each
        normalised record becomes a question object. */
    method QuestionsFetched(f: Fetched)
      requires Valid()
      modifies this`bank
      ensures Valid()
      ensures |bank| == |NormalizeBank(f)|
      ensures forall k :: 0 <= k < |bank| ==>
        var d := NormalizeBank(f)[k];
        && fresh(bank[k]) && bank[k].Valid()
        && bank[k].id == d.id && bank[k].prompt == d.prompt && bank[k].rewindAt == d.rewindAt
        && bank[k].Answers() == d.answers
    {
      bank := LoadQuestions(NormalizeBank(f));
    }

    /** `getRandomQuestion`, drawing with the random values `draws`. */
    method GetRandomQuestion(draws: seq<real>) returns (r: Option<Question>)
      requires |draws| >= MaxAttempts && UnitInterval(draws)
      ensures r == Drawn(bank, lastPromptedId, draws)
    {
      if |bank| == 0 {
        return None;
      }
      if |bank| == 1 {
        return Some(bank[0]);
      }
      ghost var ids := IdsOf(bank);
      ghost var picks := Picks(draws, |bank|);
      var attempts := 0;
      while attempts < MaxAttempts
        invariant 0 <= attempts <= MaxAttempts
        invariant SelectFrom(ids, lastPromptedId, picks) == SelectFrom(ids, lastPromptedId, picks[attempts..])
      {
        var randomIndex := Pick(draws[attempts], |bank|);
        var selected := bank[randomIndex];
        assert picks[attempts..][0] == randomIndex;
        if Some(selected.id) != lastPromptedId {
          return Some(selected);
        }
        assert picks[attempts..][1..] == picks[attempts + 1..];
        attempts := attempts + 1;
      }
      return None;
    }

    /** The fallback branch of `promptQuestion`: the fallback question is
        shown and the last prompted id cleared. */
    method ShowDefaultQuestion()
      requires Valid()
      modifies this`currentQuestion, this`lastPromptedId
      ensures Valid()
      ensures currentQuestion == Some(DefaultShown) && lastPromptedId.None?
    {
      DefaultShuffleKeepsOrder();
      currentQuestion := Some(DefaultShown);
      lastPromptedId := None;
    }

    /** The part of `promptQuestion` that shows a chosen bank question: its
        answers are shuffled in place and it is shown, unless the shuffle
        comes back empty, in which case the fallback question is shown. */
    method ShowBankQuestion(q: Question)
      requires Valid() && !frozen && q in bank
      modifies this`currentQuestion, this`lastPromptedId, q, q.answers
      ensures Valid()
      ensures currentQuestion == Some(ShownFor(Some(q), old(q.Answers())))
      ensures q.Answers() == Shuffle(old(q.Answers())).remaining
      ensures forall p :: p in bank && p != q ==> p.Answers() == old(p.Answers())
    {
      ghost var before := q.Answers();
      var shuffled := ShuffleInBank(q);
      if shuffled == [] {
        ShowDefaultQuestion();
      } else {
        ShuffleSurfacesCorrect(before);
        currentQuestion := Some(ShownQuestion(Some(q.id), q.prompt, q.rewindAt, shuffled));
        lastPromptedId := Some(q.id);
      }
    }

    /** `shuffleAnswers` on a bank question: its own array changes, every
        other question's answers stay as they were. */
    method ShuffleInBank(q: Question) returns (shown: seq<Answer>)
      requires Valid() && q in bank
      modifies q, q.answers
      ensures Valid()
      ensures shown == Shuffle(old(q.Answers())).shown
      ensures q.Answers() == Shuffle(old(q.Answers())).remaining
      ensures forall p :: p in bank && p != q ==> p.Answers() == old(p.Answers())
    {
      shown := q.ShuffleAnswers();
    }

    /** The repeat guard of `promptQuestion`: a question equal to the last
        prompted one is replaced by a fresh draw. */
    method AvoidRepeat(matched: Option<Question>, draws: seq<real>) returns (question: Option<Question>)
      requires matched.Some? ==> matched.value in bank
      requires |draws| >= MaxAttempts && UnitInterval(draws)
      ensures question == AfterRepeatGuard(bank, lastPromptedId, matched, draws)
    {
      question := matched;
      if question.Some? && Some(question.value.id) == lastPromptedId {
        question := GetRandomQuestion(draws);
      }
    }

    /** `promptQuestion(matched)`: a question equal to the last prompted one
        is drawn again once; the chosen bank question is shuffled in place
        and shown, or the fallback question is shown when there is none or
        its answer list is empty. The session freezes, the question modal
        opens and the player pauses. */
    method PromptQuestion(matched: Option<Question>, draws: seq<real>)
      requires Valid() && !frozen
      requires matched.Some? ==> matched.value in bank
      requires |draws| >= MaxAttempts && UnitInterval(draws)
      modifies this`currentQuestion, this`lastPromptedId, this`frozen, this`showQuestionModal, this`playerLog
      modifies bank, BankArrays()
      ensures Valid()
      ensures frozen && showQuestionModal && !showDecisionModal
      ensures playerLog == old(playerLog) + (if playerReady then [Pause] else [])
      ensures var c := AfterRepeatGuard(bank, old(lastPromptedId), matched, draws);
        && currentQuestion == Some(ShownFor(c, old(if c.Some? then c.value.Answers() else [])))
        && (c.Some? ==> c.value.Answers() == Shuffle(old(c.value.Answers())).remaining)
        && (forall p :: p in bank && Some(p) != c ==> p.Answers() == old(p.Answers()))
      ensures |bank| >= 2 && currentQuestion.value.id.Some? ==> currentQuestion.value.id != old(lastPromptedId)
    {
      var question := AvoidRepeat(matched, draws);
      ShowChosen(question);
      OpenQuestionModal();
    }

    /** The show step of `promptQuestion`: the chosen bank question, or the
        fallback question when none was chosen. */
    method ShowChosen(c: Option<Question>)
      requires Valid() && !frozen
      requires c.Some? ==> c.value in bank
      modifies this`currentQuestion, this`lastPromptedId, bank, BankArrays()
      ensures Valid()
      ensures currentQuestion == Some(ShownFor(c, old(if c.Some? then c.value.Answers() else [])))
      ensures c.Some? ==> c.value.Answers() == Shuffle(old(c.value.Answers())).remaining
      ensures forall p :: p in bank && Some(p) != c ==> p.Answers() == old(p.Answers())
    {
      if c.Some? {
        ShowBankQuestion(c.value);
      } else {
        ShowDefaultQuestion();
      }
    }

    /** The tail of `promptQuestion`: with a question on screen, the
        session freezes, the question modal opens and the player pauses. */
    method OpenQuestionModal()
      requires Valid() && !frozen && currentQuestion.Some?
      modifies this`frozen, this`showQuestionModal, this`playerLog
      ensures Valid()
      ensures frozen && showQuestionModal && !showDecisionModal
      ensures playerLog == old(playerLog) + (if playerReady then [Pause] else [])
      ensures forall p :: p in bank ==> p.Answers() == old(p.Answers())
    {
      frozen := true;
      showQuestionModal := true;
      if playerReady {
        playerLog := playerLog + [Pause];
      }
    }

    /** `handleVideoPlayback(gaze, delta)`. A frozen session drops the
        sample. Otherwise the debouncer takes one step and the mode's
        reaction follows: resume on gaining focus (pause mode), pause on
        losing focus or on any off-centre sample while unfocused (pause
        mode), ask a question in the same cases (question mode). The first
        `MaxAttempts` values of `draws` serve the first question draw, the
        rest a possible second one. */
    method HandleVideoPlayback(gaze: Gaze, delta: nat, draws: seq<real>)
      requires Valid()
      requires |draws| >= 2 * MaxAttempts && UnitInterval(draws)
      modifies this`isLooking, this`userFocused, this`focusedTime, this`unfocusedTime
      modifies this`currentQuestion, this`lastPromptedId, this`frozen, this`showQuestionModal, this`playerLog
      modifies bank, BankArrays()
      ensures Valid()
      ensures old(frozen) ==>
        && Focus() == old(Focus()) && playerLog == old(playerLog)
        && frozen && currentQuestion == old(currentQuestion) && lastPromptedId == old(lastPromptedId)
      ensures !old(frozen) ==> Focus() == Step(old(Focus()), gaze, pausedAtMount, delta)
      ensures !old(frozen) ==>
        var e := ReactionTo(mode, old(Focus()), gaze, pausedAtMount, delta, playerReady,
                            old(showQuestionModal || showDecisionModal));
        && (e == NoReaction ==>
              (playerLog == old(playerLog) && !frozen
               && currentQuestion == old(currentQuestion) && lastPromptedId == old(lastPromptedId)))
        && (e == ResumePlayback ==>
              (playerLog == old(playerLog) + [Play] && !frozen
               && currentQuestion == old(currentQuestion) && lastPromptedId == old(lastPromptedId)))
        && (e == PausePlayback ==>
              (playerLog == old(playerLog) + [Pause] && !frozen
               && currentQuestion == old(currentQuestion) && lastPromptedId == old(lastPromptedId)))
        && (e == Reaction.AskQuestion ==>
              var c := Prompted(bank, old(lastPromptedId), draws);
              && playerLog == old(playerLog) + [Pause] && frozen && showQuestionModal
              && currentQuestion == Some(ShownFor(c, old(if c.Some? then c.value.Answers() else [])))
              && (c.Some? ==> c.value.Answers() == Shuffle(old(c.value.Answers())).remaining))
      ensures
        var c := if !old(frozen) && ReactionTo(mode, old(Focus()), gaze, pausedAtMount, delta, playerReady,
                                               old(showQuestionModal || showDecisionModal)) == Reaction.AskQuestion
                 then Prompted(bank, old(lastPromptedId), draws) else None;
        forall p :: p in bank && Some(p) != c ==> p.Answers() == old(p.Answers())
    {
      if frozen {
        return;
      }
      if gaze == LookingCenter && !pausedAtMount {
        CentredSample(delta);
      } else {
        OffCentreSample(gaze, delta, draws);
      }
    }

    /** The centred branch of `handleVideoPlayback`: the focus accumulator
        runs while unfocused, and reaching the threshold resumes playback in
        pause mode. */
    method CentredSample(delta: nat)
      requires Valid() && !frozen && !pausedAtMount
      modifies this`isLooking, this`userFocused, this`focusedTime, this`unfocusedTime, this`playerLog
      ensures Valid()
      ensures Focus() == Step(old(Focus()), LookingCenter, pausedAtMount, delta)
      ensures playerLog == old(playerLog) +
        (if ReactionTo(mode, old(Focus()), LookingCenter, pausedAtMount, delta, playerReady, false) == ResumePlayback
         then [Play] else [])
    {
      isLooking := true;
      unfocusedTime := 0;
      if !userFocused {
        focusedTime := focusedTime + delta;
        if focusedTime >= FocusThreshold {
          userFocused := true;
          focusedTime := 0;
          if mode == PauseMode && playerReady && !showQuestionModal && !showDecisionModal {
            playerLog := playerLog + [Play];
          }
        }
      } else {
        focusedTime := 0;
      }
    }

    /** The off-centre branch of `handleVideoPlayback`: the unfocus
        accumulator runs while focused; reaching the threshold pauses (pause
        mode) or prompts a question (question mode), and so does every
        off-centre sample while not focused. */
    method OffCentreSample(gaze: Gaze, delta: nat, draws: seq<real>)
      requires Valid() && !frozen && !Centred(gaze, pausedAtMount)
      requires |draws| >= 2 * MaxAttempts && UnitInterval(draws)
      modifies this`isLooking, this`userFocused, this`focusedTime, this`unfocusedTime
      modifies this`currentQuestion, this`lastPromptedId, this`frozen, this`showQuestionModal, this`playerLog
      modifies bank, BankArrays()
      ensures Valid()
      ensures Focus() == Step(old(Focus()), gaze, pausedAtMount, delta)
      ensures
        var e := ReactionTo(mode, old(Focus()), gaze, pausedAtMount, delta, playerReady, false);
        && (e == NoReaction ==>
              (playerLog == old(playerLog) && !frozen
               && currentQuestion == old(currentQuestion) && lastPromptedId == old(lastPromptedId)))
        && (e == PausePlayback ==>
              (playerLog == old(playerLog) + [Pause] && !frozen
               && currentQuestion == old(currentQuestion) && lastPromptedId == old(lastPromptedId)))
        && (e == Reaction.AskQuestion ==>
              var c := Prompted(bank, old(lastPromptedId), draws);
              && playerLog == old(playerLog) + [Pause] && frozen && showQuestionModal
              && currentQuestion == Some(ShownFor(c, old(if c.Some? then c.value.Answers() else [])))
              && (c.Some? ==> c.value.Answers() == Shuffle(old(c.value.Answers())).remaining))
      ensures
        var c := if ReactionTo(mode, old(Focus()), gaze, pausedAtMount, delta, playerReady, false) == Reaction.AskQuestion
                 then Prompted(bank, old(lastPromptedId), draws) else None;
        forall p :: p in bank && Some(p) != c ==> p.Answers() == old(p.Answers())
    {
      var prompt := LeaveCentre(gaze, delta);
      if prompt {
        PromptRandomQuestion(draws);
      }
    }

    /** The debouncer half of the off-centre branch, with the pause it may
        call for; `prompt` says whether a question is due. */
    method LeaveCentre(gaze: Gaze, delta: nat) returns (prompt: bool)
      requires Valid() && !frozen && !Centred(gaze, pausedAtMount)
      modifies this`isLooking, this`userFocused, this`focusedTime, this`unfocusedTime, this`playerLog
      ensures Valid()
      ensures Focus() == Step(old(Focus()), gaze, pausedAtMount, delta)
      ensures prompt <==>
        ReactionTo(mode, old(Focus()), gaze, pausedAtMount, delta, playerReady, false) == Reaction.AskQuestion
      ensures playerLog == old(playerLog) +
        (if ReactionTo(mode, old(Focus()), gaze, pausedAtMount, delta, playerReady, false) == PausePlayback
         then [Pause] else [])
    {
      isLooking := false;
      focusedTime := 0;
      if userFocused {
        prompt := LoseFocus(delta);
      } else {
        prompt := StayUnfocused(gaze);
      }
    }

    /** Off-centre while focused: the unfocus accumulator runs, and reaching
        the threshold flips focus, pauses (pause mode) or calls for a
        question (question mode). */
    method LoseFocus(delta: nat) returns (prompt: bool)
      requires Valid() && !frozen && userFocused && !isLooking && focusedTime == 0
      modifies this`userFocused, this`unfocusedTime, this`playerLog
      ensures Valid() && !isLooking && focusedTime == 0
      ensures old(unfocusedTime) + delta >= UnfocusThreshold ==>
        && !userFocused && unfocusedTime == 0
        && playerLog == old(playerLog) + (if mode == PauseMode && playerReady then [Pause] else [])
        && (prompt <==> mode == QuestionMode && playerReady)
      ensures old(unfocusedTime) + delta < UnfocusThreshold ==>
        && userFocused && unfocusedTime == old(unfocusedTime) + delta
        && playerLog == old(playerLog) && !prompt
    {
      prompt := false;
      unfocusedTime := unfocusedTime + delta;
      if unfocusedTime >= UnfocusThreshold {
        userFocused := false;
        unfocusedTime := 0;
        if mode == PauseMode && playerReady {
          playerLog := playerLog + [Pause];
        }
        prompt := mode == QuestionMode && playerReady && !showQuestionModal && !showDecisionModal;
      }
    }

    /** Off-centre while not focused: every sample with a gaze away from the
        centre pauses (pause mode) or calls for a question (question mode). */
    method StayUnfocused(gaze: Gaze) returns (prompt: bool)
      requires Valid() && !frozen && !userFocused && !isLooking && focusedTime == 0
      modifies this`playerLog
      ensures Valid()
      ensures playerLog == old(playerLog) +
        (if mode == PauseMode && playerReady && gaze != LookingCenter then [Pause] else [])
      ensures prompt <==> mode == QuestionMode && playerReady && gaze != LookingCenter
    {
      if mode == PauseMode && playerReady && gaze != LookingCenter && !showQuestionModal && !showDecisionModal {
        playerLog := playerLog + [Pause];
      }
      prompt := mode == QuestionMode && playerReady && !showQuestionModal && !showDecisionModal && gaze != LookingCenter;
    }

    /** The question branch of `handleVideoPlayback`: draw a question and prompt it. */
    method PromptRandomQuestion(draws: seq<real>)
      requires Valid() && !frozen
      requires |draws| >= 2 * MaxAttempts && UnitInterval(draws)
      modifies this`currentQuestion, this`lastPromptedId, this`frozen, this`showQuestionModal, this`playerLog
      modifies bank, BankArrays()
      ensures Valid()
      ensures frozen && showQuestionModal && !showDecisionModal
      ensures playerLog == old(playerLog) + (if playerReady then [Pause] else [])
      ensures var c := Prompted(bank, old(lastPromptedId), draws);
        && currentQuestion == Some(ShownFor(c, old(if c.Some? then c.value.Answers() else [])))
        && (c.Some? ==> c.value.Answers() == Shuffle(old(c.value.Answers())).remaining)
        && (forall p :: p in bank && Some(p) != c ==> p.Answers() == old(p.Answers()))
      ensures |bank| >= 2 && currentQuestion.value.id.Some? ==> currentQuestion.value.id != old(lastPromptedId)
    {
      var matched := GetRandomQuestion(draws[..MaxAttempts]);
      PromptQuestion(matched, draws[MaxAttempts..]);
    }

    /** `onResults`: a classified frame at wall-clock time `now`. The time
        since the previous frame is measured, and the clock advanced, before
        the frozen check, so a frozen period never counts towards the next
        sample's delta. */
    method OnResults(gaze: Gaze, now: int, draws: seq<real>)
      requires Valid() && now >= lastGazeTime
      requires |draws| >= 2 * MaxAttempts && UnitInterval(draws)
      modifies this`lastGazeTime
      modifies this`isLooking, this`userFocused, this`focusedTime, this`unfocusedTime
      modifies this`currentQuestion, this`lastPromptedId, this`frozen, this`showQuestionModal, this`playerLog
      modifies bank, BankArrays()
      ensures Valid() && lastGazeTime == now
      ensures old(frozen) ==>
        && Focus() == old(Focus()) && playerLog == old(playerLog)
        && frozen && currentQuestion == old(currentQuestion) && lastPromptedId == old(lastPromptedId)
      ensures !old(frozen) ==> Focus() == Step(old(Focus()), gaze, pausedAtMount, now - old(lastGazeTime))
      ensures !old(frozen) ==>
        var e := ReactionTo(mode, old(Focus()), gaze, pausedAtMount, now - old(lastGazeTime), playerReady,
                            old(showQuestionModal || showDecisionModal));
        && (e == NoReaction ==>
              (playerLog == old(playerLog) && !frozen
               && currentQuestion == old(currentQuestion) && lastPromptedId == old(lastPromptedId)))
        && (e == ResumePlayback ==>
              (playerLog == old(playerLog) + [Play] && !frozen
               && currentQuestion == old(currentQuestion) && lastPromptedId == old(lastPromptedId)))
        && (e == PausePlayback ==>
              (playerLog == old(playerLog) + [Pause] && !frozen
               && currentQuestion == old(currentQuestion) && lastPromptedId == old(lastPromptedId)))
        && (e == Reaction.AskQuestion ==>
              var c := Prompted(bank, old(lastPromptedId), draws);
              && playerLog == old(playerLog) + [Pause] && frozen && showQuestionModal
              && currentQuestion == Some(ShownFor(c, old(if c.Some? then c.value.Answers() else [])))
              && (c.Some? ==> c.value.Answers() == Shuffle(old(c.value.Answers())).remaining))
      ensures
        var c := if !old(frozen) && ReactionTo(mode, old(Focus()), gaze, pausedAtMount, now - old(lastGazeTime), playerReady,
                                               old(showQuestionModal || showDecisionModal)) == Reaction.AskQuestion
                 then Prompted(bank, old(lastPromptedId), draws) else None;
        forall p :: p in bank && Some(p) != c ==> p.Answers() == old(p.Answers())
    {
      var deltaTime := AdvanceClock(now);
      HandleVideoPlayback(gaze, deltaTime, draws);
    }

    /** The first half of `onResults`: the time since the previous frame,
        with the clock moved on to `now`. */
    method AdvanceClock(now: int) returns (delta: nat)
      requires Valid() && now >= lastGazeTime
      modifies this`lastGazeTime
      ensures Valid() && lastGazeTime == now && delta == now - old(lastGazeTime)
      ensures Focus() == old(Focus())
      ensures forall p :: p in bank ==> p.Answers() == old(p.Answers())
    {
      delta := now - lastGazeTime;
      lastGazeTime := now;
    }

    /** `handleAnswer(key)`, reachable only from the open question modal: the
        decision modal replaces it, recording whether the chosen key's answer
        is correct. */
    method HandleAnswer(key: string)
      requires Valid() && showQuestionModal
      modifies this`isAnswerCorrect, this`showQuestionModal, this`showDecisionModal
      ensures Valid()
      ensures frozen && !showQuestionModal && showDecisionModal
      ensures isAnswerCorrect == Some(IsCorrectChoice(currentQuestion.value.answers, key))
      ensures key == currentQuestion.value.answers[0].key ==> isAnswerCorrect == Some(true)
    {
      var shown := currentQuestion.value.answers;
      var isCorrect := IsCorrectChoice(shown, key);
      isAnswerCorrect := Some(isCorrect);
      showQuestionModal := false;
      showDecisionModal := true;
    }

    /** `handleDecision(decision)`, reachable only from the open decision
        modal. "continue" resumes playback and unfreezes; "rewind" also
        seeks to the shown question's timecode first; anything else changes
        nothing. */
    method HandleDecision(decision: string)
      requires Valid() && showDecisionModal
      modifies this`isAnswerCorrect, this`showDecisionModal, this`frozen, this`playerLog
      ensures Valid()
      ensures decision == "continue" ==>
        && !frozen && !showDecisionModal && isAnswerCorrect.None?
        && playerLog == old(playerLog) + (if playerReady then [Play] else [])
      ensures decision == "rewind" ==>
        && !frozen && !showDecisionModal && isAnswerCorrect.None?
        && playerLog == old(playerLog) +
             (if playerReady then [SeekTo(TimeStringToSeconds(currentQuestion.value.rewindAt)), Play] else [])
      ensures decision != "continue" && decision != "rewind" ==>
        && frozen && showDecisionModal && isAnswerCorrect == old(isAnswerCorrect) && playerLog == old(playerLog)
    {
      if decision == "continue" {
        showDecisionModal := false;
        isAnswerCorrect := None;
        if playerReady {
          playerLog := playerLog + [Play];
        }
        frozen := false;
      } else if decision == "rewind" {
        showDecisionModal := false;
        isAnswerCorrect := None;
        if currentQuestion.Some? && playerReady {
          var questionTimeSec := TimeStringToSeconds(currentQuestion.value.rewindAt);
          playerLog := playerLog + [SeekTo(questionTimeSec), Play];
        }
        frozen := false;
      }
    }

    /** One firing of the 3-second bucket interval: unless the session is
        frozen, the current debounced focus is appended as 1 or 0. Once the
        interval is cleared it never fires. */
    method Tick()
      requires Valid()
      modifies this`focusData
      ensures Valid()
      ensures focusData == if old(intervalRunning) && !frozen
        then old(focusData) + [if userFocused then 1 else 0]
        else old(focusData)
    {
      if !intervalRunning {
        return;
      }
      if frozen {
        return;
      }
      focusData := focusData + [if userFocused then 1 else 0];
    }

    /** `handleSessionEnd` at wall-clock time `now`: the interval is cleared
        and the summary of the buckets so far is returned. */
    method EndSession(now: int, lecture: LectureInfo, user: UserInfo) returns (summary: SessionSummary)
      requires Valid()
      modifies this`intervalRunning
      ensures Valid() && !intervalRunning
      ensures summary == Summarize(focusData, startTime, now, lecture, user)
    {
      intervalRunning := false;
      summary := Summarize(focusData, startTime, now, lecture, user);
    }
  }
}
