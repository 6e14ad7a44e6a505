/** Answers of a question and the "shuffle" that puts a correct answer
    first. Despite its name the shuffle is deterministic: it moves the first
    correct answer to the front and keeps the others in their order. */
module Answers {
  import opened Wrappers

  datatype Answer = Answer(key: string, text: string, correct: bool)

  /** What the as-written shuffle raises on an empty answer list. */
  datatype JsError = TypeError

  /** The answers of the built-in fallback question ("Are you with us?"). */
  const DefaultAnswers: seq<Answer> := [
    Answer("answer1", "Yes 100%", true),
    Answer("answer2", "Yes 80%", false),
    Answer("answer3", "No", false),
    Answer("answer4", "Sleep", false)
  ]

  /** `answers.findIndex(ans => ans.correct)`, with `None` for -1. */
  function FirstCorrect(s: seq<Answer>): (r: Option<nat>)
    ensures r.Some? ==> r.value < |s| && s[r.value].correct
    ensures r.Some? ==> forall j :: 0 <= j < r.value ==> !s[j].correct
    ensures r.None? <==> forall j :: 0 <= j < |s| ==> !s[j].correct
  {
    if s == [] then None
    else if s[0].correct then Some(0)
    else match FirstCorrect(s[1..])
      case None => None
      case Some(k) => Some(k + 1)
  }

  /** The list a shuffle returns (`shown`) and what it leaves in the
      question's own answer array (`remaining`). */
  datatype Shuffled = Shuffled(shown: seq<Answer>, remaining: seq<Answer>)

  /** One call of `shuffleAnswers`, with an empty answer list returning an
      empty list (the corrected behaviour, see `ShuffleAsWritten`). With a
      correct answer at index k, that answer is spliced out of the
      question's array and put in front of what is left. Without one, the
      first answer is marked correct in place and the same list returned. */
  function Shuffle(s: seq<Answer>): Shuffled {
    if s == [] then Shuffled([], [])
    else match FirstCorrect(s)
      case None =>
        var marked := s[0 := s[0].(correct := true)];
        Shuffled(marked, marked)
      case Some(k) =>
        var rest := s[..k] + s[k + 1..];
        Shuffled([s[k]] + rest, rest)
  }

  /** `shuffleAnswers` exactly as written: on an empty answer array
      `findIndex` gives -1 and `question.answers[0].correct = true` assigns
      to a property of `undefined`, which throws. */
  function ShuffleAsWritten(s: seq<Answer>): (r: Result<Shuffled, JsError>)
    ensures r.Success? <==> s != []
    ensures r.Success? ==> r.value == Shuffle(s)
  {
    if s == [] then Failure(TypeError)
    else Success(Shuffle(s))
  }

  function Keys(s: seq<Answer>): seq<string> {
    seq(|s|, i requires 0 <= i < |s| => s[i].key)
  }

  /** With a correct answer present, the shown list is a permutation of the
      answers, starts with the first correct one, keeps the others in their
      original order, and the question is left without that answer. */
  lemma ShuffleWithCorrect(s: seq<Answer>, k: nat)
    requires FirstCorrect(s) == Some(k)
    ensures var r := Shuffle(s);
      && |r.shown| == |s|
      && r.shown[0] == s[k] && r.shown[0].correct
      && r.shown[1..] == s[..k] + s[k + 1..]
      && r.remaining == r.shown[1..] && |r.remaining| == |s| - 1
      && multiset(r.shown) == multiset(s)
  {
    var r := Shuffle(s);
    assert r.shown == [s[k]] + (s[..k] + s[k + 1..]);
    assert s == s[..k] + [s[k]] + s[k + 1..];
    assert multiset(s) == multiset(s[..k]) + multiset([s[k]]) + multiset(s[k + 1..]);
  }

  /** With no correct answer, the same list comes back with its first answer
      now marked correct, and the question keeps all its answers. */
  lemma ShuffleWithoutCorrect(s: seq<Answer>)
    requires s != []
    requires forall j :: 0 <= j < |s| ==> !s[j].correct
    ensures var r := Shuffle(s);
      && r.shown == r.remaining && |r.shown| == |s|
      && r.shown[0].correct && Keys(r.shown) == Keys(s)
      && r.shown[0].key == s[0].key && r.shown[0].text == s[0].text
      && r.shown[1..] == s[1..]
  {
  }

  /** A non-empty answer list always comes back non-empty, of the same
      length, with a correct answer first and the same keys in some order. */
  lemma ShuffleSurfacesCorrect(s: seq<Answer>)
    requires s != []
    ensures var r := Shuffle(s);
      && |r.shown| == |s| && r.shown[0].correct
      && multiset(Keys(r.shown)) == multiset(Keys(s))
  {
    match FirstCorrect(s)
    case None =>
      ShuffleWithoutCorrect(s);
    case Some(k) =>
      ShuffleWithCorrect(s, k);
      var before, after := s[..k], s[k + 1..];
      KeysConcat(before, [s[k]] + after);
      KeysConcat([s[k]], after);
      KeysConcat([s[k]], before + after);
      KeysConcat(before, after);
      assert s == before + ([s[k]] + after);
      assert Shuffle(s).shown == [s[k]] + (before + after);
  }

  lemma KeysConcat(a: seq<Answer>, b: seq<Answer>)
    ensures Keys(a + b) == Keys(a) + Keys(b)
  {
  }

  /** With exactly one correct answer, it is shown first and every other
      shown answer is incorrect. */
  lemma ShuffleSingleCorrect(s: seq<Answer>, k: nat)
    requires k < |s| && s[k].correct
    requires forall j :: 0 <= j < |s| && j != k ==> !s[j].correct
    ensures var r := Shuffle(s);
      && r.shown[0] == s[k]
      && forall j :: 1 <= j < |r.shown| ==> !r.shown[j].correct
  {
    assert FirstCorrect(s) == Some(k);
    ShuffleWithCorrect(s, k);
    var r := Shuffle(s);
    forall j | 1 <= j < |r.shown|
      ensures !r.shown[j].correct
    {
      if j <= k {
        assert r.shown[j] == s[j - 1];
      } else {
        assert r.shown[j] == s[j];
      }
    }
  }

  /** The fallback question comes out in its written order, "Yes 100%" first. */
  lemma DefaultShuffleKeepsOrder()
    ensures Shuffle(DefaultAnswers).shown == DefaultAnswers
    ensures Shuffle(DefaultAnswers).shown[0].correct
  {
    assert FirstCorrect(DefaultAnswers) == Some(0);
    assert DefaultAnswers[..0] + DefaultAnswers[1..] == DefaultAnswers[1..];
  }

  // Repeated prompting of one question. Each shuffle writes back into the
  // question's own array, so the next shuffle of the same question starts
  // from what the last one left.

  /** What is left in a question's answer array after `n` shuffles. */
  function ShuffleTimes(s: seq<Answer>, n: nat): seq<Answer>
    decreases n
  {
    if n == 0 then s else ShuffleTimes(Shuffle(s).remaining, n - 1)
  }

  /** Twice the number of answers, less one when a correct answer is still
      present: each shuffle of a non-empty list lowers it. */
  function Potential(s: seq<Answer>): nat {
    if s != [] && FirstCorrect(s).Some? then 2 * |s| - 1 else 2 * |s|
  }

  lemma ShuffleLowersPotential(s: seq<Answer>)
    requires s != []
    ensures Potential(Shuffle(s).remaining) < Potential(s)
  {
    match FirstCorrect(s)
    case None =>
      ShuffleWithoutCorrect(s);
      assert FirstCorrect(Shuffle(s).remaining) == Some(0);
    case Some(k) =>
      ShuffleWithCorrect(s, k);
  }

  /** After at least `Potential(s)` shuffles the question has no answers
      left. */
  lemma {:induction false} ShufflesEmptyTheQuestion(s: seq<Answer>, n: nat)
    requires n >= Potential(s)
    ensures ShuffleTimes(s, n) == []
    decreases n
  {
    if s == [] {
      ShuffleTimes_OfEmpty(n);
    } else {
      ShuffleLowersPotential(s);
      ShufflesEmptyTheQuestion(Shuffle(s).remaining, n - 1);
    }
  }

  lemma {:induction false} ShuffleTimes_OfEmpty(n: nat)
    ensures ShuffleTimes([], n) == []
  {
    if n > 0 {
      ShuffleTimes_OfEmpty(n - 1);
    }
  }

  /** As written, shuffling one question 2 * |s| times leaves its answer
      array empty, and the next shuffle throws. */
  lemma AsWrittenThrowsAfterRepeatedShuffles(s: seq<Answer>)
    ensures ShuffleAsWritten(ShuffleTimes(s, 2 * |s|)).Failure?
  {
    ShufflesEmptyTheQuestion(s, 2 * |s|);
  }

  /** Prompting one question twice: with only its first answer correct,
      the first shuffle splices that answer out of the question, so the
      second shows the next answer, marked correct, in front. */
  lemma ShuffleTwiceMarksNextAnswer(s: seq<Answer>)
    requires |s| >= 2 && s[0].correct
    requires forall j :: 1 <= j < |s| ==> !s[j].correct
    ensures Shuffle(s).shown == s
    ensures Shuffle(Shuffle(s).remaining).shown == s[1..][0 := s[1].(correct := true)]
  {
    assert FirstCorrect(s) == Some(0);
    assert s[..0] + s[1..] == s[1..];
    assert FirstCorrect(s[1..]).None?;
  }

  // The fallback question object. The gaze handler keeps the mount-time
  // `promptQuestion`, whose `defaultQuestion` is one object shuffled in
  // place by every fallback prompt, so it erodes like a bank question.

  /** As written, the second fallback prompt shows "Yes 80%" as the correct
      answer, and only three answers. */
  lemma FallbackSecondPrompt()
    ensures Shuffle(ShuffleTimes(DefaultAnswers, 1)).shown ==
      [Answer("answer2", "Yes 80%", true), Answer("answer3", "No", false), Answer("answer4", "Sleep", false)]
  {
    DefaultShuffleKeepsOrder();
    var rest := DefaultAnswers[1..];
    assert ShuffleTimes(DefaultAnswers, 1) == rest by {
      assert DefaultAnswers[..0] + DefaultAnswers[1..] == rest;
    }
    assert !rest[0].correct && !rest[1].correct && !rest[2].correct;
    assert FirstCorrect(rest).None?;
  }

  /** As written, the eighth fallback prompt finds the object's answer array
      empty and throws. */
  lemma FallbackThrowsOnEighthPrompt()
    ensures ShuffleAsWritten(ShuffleTimes(DefaultAnswers, 7)).Failure?
  {
    assert FirstCorrect(DefaultAnswers) == Some(0);
    ShufflesEmptyTheQuestion(DefaultAnswers, 7);
  }

  /** `currentQuestion.shuffledAnswers.find(ans => ans.key === key)`, then
      its `correct` flag, false when no answer has that key. */
  function IsCorrectChoice(shown: seq<Answer>, key: string): (ok: bool)
    ensures ok <==> exists j :: 0 <= j < |shown| && shown[j].key == key && shown[j].correct
                                && forall m :: 0 <= m < j ==> shown[m].key != key
    ensures shown != [] && shown[0].key == key ==> ok == shown[0].correct
    ensures (forall j :: 0 <= j < |shown| ==> shown[j].key != key) ==> !ok
    decreases |shown|
  {
    if shown == [] then false
    else if shown[0].key == key then shown[0].correct
    else IsCorrectChoice(shown[1..], key)
  }
}
