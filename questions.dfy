/** Bank questions as objects whose answer array `shuffleAnswers` rewrites in
    place, and the random selection of the next question to show. */
module Questions {
  import opened Wrappers
  import opened Answers
  import opened QuestionBank

  /** A loaded question. Its answers live in a resizable array, modelled as a
      fixed buffer `answers` of which the first `count` cells are in use;
      `splice` shifts cells left and shrinks `count`. */
  class Question {
    const id: string
    const prompt: string
    const rewindAt: string
    const answers: array<Answer>
    var count: nat

    ghost predicate Valid()
      reads this
    {
      count <= answers.Length
    }

    /** The question's current answer list. */
    function Answers(): seq<Answer>
      reads this, answers
      requires Valid()
    {
      answers[..count]
    }

    constructor (d: QuestionData)
      ensures Valid() && fresh(answers)
      ensures id == d.id && prompt == d.prompt && rewindAt == d.rewindAt
      ensures Answers() == d.answers
    {
      id, prompt, rewindAt := d.id, d.prompt, d.rewindAt;
      answers := new Answer[|d.answers|](i requires 0 <= i < |d.answers| => d.answers[i]);
      count := |d.answers|;
    }

    /** `shuffleAnswers(question)`: finds the first correct answer, splices it
        out of this question's own array and returns it in front of the rest;
        with none correct, marks the first answer correct in place and returns
        the array's contents. An empty array returns an empty list (the
        as-written code throws here, see `Answers.ShuffleAsWritten`). */
    method ShuffleAnswers() returns (shown: seq<Answer>)
      requires Valid()
      modifies this, answers
      ensures Valid()
      ensures shown == Shuffle(old(Answers())).shown
      ensures Answers() == Shuffle(old(Answers())).remaining
    {
      ghost var s := answers[..count];
      var k := 0;
      while k < count && !answers[k].correct
        invariant 0 <= k <= count == |s| <= answers.Length
        invariant forall j :: 0 <= j < k ==> !s[j].correct
      {
        k := k + 1;
      }
      if k == count {
        if count == 0 {
          return [];
        }
        answers[0] := answers[0].(correct := true);
        shown := answers[..count];
        assert shown == s[0 := s[0].(correct := true)];
        return;
      }
      assert FirstCorrect(s) == Some(k) by {
        FirstCorrectIsFirst(s, k);
      }
      var picked := answers[k];
      Splice(k);
      shown := [picked] + answers[..count];
    }

    /** `answers.splice(k, 1)`: later cells move one place left and the
        array shrinks by one. */
    method Splice(k: nat)
      requires Valid() && k < count
      modifies this`count, answers
      ensures Valid() && count == old(count) - 1
      ensures Answers() == old(Answers()[..k] + Answers()[k + 1..])
    {
      ghost var s := answers[..count];
      var j := k;
      while j + 1 < count
        invariant k <= j < count == |s| <= answers.Length
        invariant forall i :: 0 <= i < k ==> answers[i] == s[i]
        invariant forall i :: k <= i < j ==> answers[i] == s[i + 1]
        invariant forall i :: j < i < count ==> answers[i] == s[i]
      {
        answers[j] := answers[j + 1];
        j := j + 1;
      }
      count := count - 1;
      assert j == count;
      assert answers[..count] == s[..k] + s[k + 1..];
    }
  }

  /** Each normalised record becomes a question object with an answer
      array of its own. */
  method LoadQuestions(data: seq<QuestionData>) returns (loaded: seq<Question>)
    ensures |loaded| == |data|
    ensures forall k :: 0 <= k < |data| ==>
      && fresh(loaded[k]) && fresh(loaded[k].answers) && loaded[k].Valid()
      && loaded[k].id == data[k].id && loaded[k].prompt == data[k].prompt
      && loaded[k].rewindAt == data[k].rewindAt && loaded[k].Answers() == data[k].answers
    ensures forall p, q :: p in loaded && q in loaded && p != q ==> p.answers != q.answers
  {
    loaded := [];
    var i := 0;
    while i < |data|
      invariant 0 <= i <= |data| && |loaded| == i
      invariant forall k :: 0 <= k < i ==>
        && fresh(loaded[k]) && fresh(loaded[k].answers) && loaded[k].Valid()
        && loaded[k].id == data[k].id && loaded[k].prompt == data[k].prompt
        && loaded[k].rewindAt == data[k].rewindAt && loaded[k].Answers() == data[k].answers
      invariant forall j, k :: 0 <= j < i && 0 <= k < i && j != k ==> loaded[j].answers != loaded[k].answers
    {
      var q := new Question(data[i]);
      loaded := loaded + [q];
      i := i + 1;
    }
  }

  /** The index `findIndex` finds is the one `FirstCorrect` names. */
  lemma FirstCorrectIsFirst(s: seq<Answer>, k: nat)
    requires k < |s| && s[k].correct
    requires forall j :: 0 <= j < k ==> !s[j].correct
    ensures FirstCorrect(s) == Some(k)
  {
    match FirstCorrect(s)
    case None =>
    case Some(m) =>
  }

  // Selection. `Math.floor(Math.random() * n)` is modelled with the random
  // values supplied by the caller, each in [0, 1).

  /** `maxAttempts`. */
  const MaxAttempts: nat := 10

  predicate UnitInterval(draws: seq<real>) {
    forall k :: 0 <= k < |draws| ==> 0.0 <= draws[k] < 1.0
  }

  /** `Math.floor(r * n)` for a random value r in [0, 1). */
  function Pick(r: real, n: nat): (i: nat)
    requires 0.0 <= r < 1.0 && n >= 1
    ensures i < n
  {
    PickBounds(r, n);
    (r * n as real).Floor
  }

  lemma PickBounds(r: real, n: nat)
    requires 0.0 <= r < 1.0 && n >= 1
    ensures 0 <= (r * n as real).Floor < n
  {
    assert 0.0 <= r * n as real;
    assert r * n as real < n as real by {
      assert (1.0 - r) * n as real > 0.0;
    }
  }

  /** The first `MaxAttempts` indices the random values draw from a bank of
      `n` questions. */
  function Picks(draws: seq<real>, n: nat): (picks: seq<nat>)
    requires |draws| >= MaxAttempts && UnitInterval(draws) && n >= 1
    ensures |picks| == MaxAttempts
    ensures forall k :: 0 <= k < |picks| ==> picks[k] < n
  {
    seq(MaxAttempts, k requires 0 <= k < MaxAttempts => Pick(draws[k], n))
  }

  /** The retry loop: the first drawn index whose question's id differs from
      the last prompted id, or `None` once every draw has hit that id. */
  function SelectFrom(ids: seq<string>, last: Option<string>, picks: seq<nat>): (r: Option<nat>)
    requires forall k :: 0 <= k < |picks| ==> picks[k] < |ids|
    ensures r.Some? ==> r.value < |ids| && Some(ids[r.value]) != last && r.value in picks
    ensures r.None? <==> forall k :: 0 <= k < |picks| ==> Some(ids[picks[k]]) == last
    ensures r.Some? ==>
      exists k :: 0 <= k < |picks| && picks[k] == r.value && forall j :: 0 <= j < k ==> Some(ids[picks[j]]) == last
    decreases |picks|
  {
    if picks == [] then None
    else if Some(ids[picks[0]]) != last then Some(picks[0])
    else
      var r := SelectFrom(ids, last, picks[1..]);
      assert r.Some? ==> exists k :: 0 <= k < |picks| && picks[k] == r.value && forall j :: 0 <= j < k ==> Some(ids[picks[j]]) == last by {
        if r.Some? {
          var k :| 0 <= k < |picks[1..]| && picks[1..][k] == r.value && forall j :: 0 <= j < k ==> Some(ids[picks[1..][j]]) == last;
          assert forall j :: 0 <= j < k + 1 ==> Some(ids[picks[j]]) == last by {
            forall j | 0 <= j < k + 1 ensures Some(ids[picks[j]]) == last {
              if j > 0 { assert picks[j] == picks[1..][j - 1]; }
            }
          }
        }
      }
      r
  }

  /** `getRandomQuestion` on a bank with the given ids: no question from an
      empty bank, the only question from a one-question bank (even when it
      was the last one prompted), otherwise the retry loop. */
  function Select(ids: seq<string>, last: Option<string>, draws: seq<real>): Option<nat>
    requires |draws| >= MaxAttempts && UnitInterval(draws)
  {
    if |ids| == 0 then None
    else if |ids| == 1 then Some(0)
    else SelectFrom(ids, last, Picks(draws, |ids|))
  }

  /** What `getRandomQuestion` promises its callers: a bank member, one whose
      id is not the last prompted id unless the bank has only that question,
      and no question exactly when the bank is empty or all ten draws hit the
      last prompted id. From two questions on, it is the question of the
      first draw that misses the last prompted id. */
  lemma SelectSpec(ids: seq<string>, last: Option<string>, draws: seq<real>)
    requires |draws| >= MaxAttempts && UnitInterval(draws)
    ensures var r := Select(ids, last, draws);
      && (r.Some? ==> r.value < |ids|)
      && (|ids| == 1 ==> r == Some(0))
      && (|ids| >= 2 && r.Some? ==> Some(ids[r.value]) != last)
      && (r.None? <==>
            (|ids| == 0 || (|ids| >= 2 && forall k :: 0 <= k < MaxAttempts ==> Some(ids[Pick(draws[k], |ids|)]) == last)))
      && (|ids| >= 2 && r.Some? ==>
            exists k :: 0 <= k < MaxAttempts && r.value == Pick(draws[k], |ids|)
              && forall j :: 0 <= j < k ==> Some(ids[Pick(draws[j], |ids|)]) == last)
  {
    if |ids| >= 2 {
      var picks := Picks(draws, |ids|);
      assert forall k :: 0 <= k < MaxAttempts ==> picks[k] == Pick(draws[k], |ids|);
      assert Select(ids, last, draws) == SelectFrom(ids, last, picks);
    }
  }

  lemma PickOfFraction(j: nat, n: nat)
    requires j < n
    ensures 0.0 <= j as real / n as real < 1.0
    ensures Pick(j as real / n as real, n) == j
  {
    var r := j as real / n as real;
    assert r * n as real == j as real;
  }

  /** A bank of two or more questions can still come back empty-handed: ten
      draws that all land on the last prompted question. */
  lemma SelectCanFallBack(ids: seq<string>, j: nat)
    requires |ids| >= 2 && j < |ids|
    ensures var draws := seq(MaxAttempts, k => j as real / |ids| as real);
      UnitInterval(draws) && Select(ids, Some(ids[j]), draws).None?
  {
    var n := |ids|;
    PickOfFraction(j, n);
    var draws := seq(MaxAttempts, k => j as real / n as real);
    var picks := Picks(draws, n);
    assert forall k :: 0 <= k < MaxAttempts ==> picks[k] == j;
  }
}
