/** Normalisation of a fetched question bank: each record's four answer
    slots become an answer list that keeps only the slots with text. */
module QuestionBank {
  import opened Wrappers
  import opened Answers

  /** A question record as the service returns it: four answer texts (absent
      ones are `None`) with their correctness flags (absent ones are false). */
  datatype RawQuestion = RawQuestion(
    qId: string, question: string, timeStart: string,
    answer1: Option<string>, answer1Correct: bool,
    answer2: Option<string>, answer2Correct: bool,
    answer3: Option<string>, answer3Correct: bool,
    answer4: Option<string>, answer4Correct: bool)

  /** The shapes the fetch can resolve to: a bare array of records, an object
      whose `questions` field is such an array, anything else, or a failed
      request. */
  datatype Fetched =
    | BareList(items: seq<RawQuestion>)
    | Wrapped(questions: seq<RawQuestion>)
    | Unrecognised
    | FetchFailed

  /** A normalised question: the record's id, prompt and rewind timecode
      (`time_start_I_can_ask_about_it`) and its answer list. */
  datatype QuestionData = QuestionData(id: string, prompt: string, rewindAt: string, answers: seq<Answer>)

  /** One answer slot before filtering. */
  datatype Slot = Slot(key: string, text: Option<string>, correct: bool)

  /** JavaScript truthiness of an answer text: present and not empty. */
  predicate Truthy(text: Option<string>) {
    text.Some? && text.value != ""
  }

  function Slots(q: RawQuestion): (slots: seq<Slot>)
    ensures |slots| == 4
  {
    [ Slot("answer1", q.answer1, q.answer1Correct),
      Slot("answer2", q.answer2, q.answer2Correct),
      Slot("answer3", q.answer3, q.answer3Correct),
      Slot("answer4", q.answer4, q.answer4Correct) ]
  }

  function ToAnswer(sl: Slot): Answer
    requires sl.text.Some?
  {
    Answer(sl.key, sl.text.value, sl.correct)
  }

  /** `.filter(ans => ans.text)`: the slots with truthy text, in slot order. */
  function KeepTruthy(slots: seq<Slot>): (r: seq<Answer>)
    ensures |r| <= |slots|
    ensures forall a :: a in r <==> exists i :: 0 <= i < |slots| && Truthy(slots[i].text) && a == ToAnswer(slots[i])
    ensures r == [] <==> forall i :: 0 <= i < |slots| ==> !Truthy(slots[i].text)
  {
    if slots == [] then []
    else
      var rest := KeepTruthy(slots[1..]);
      assert forall i :: 1 <= i < |slots| ==> slots[i] == slots[1..][i - 1];
      if Truthy(slots[0].text) then [ToAnswer(slots[0])] + rest else rest
  }

  /** The filter of one slot keeps it exactly when its text is truthy. */
  lemma KeepTruthySingle(sl: Slot)
    ensures KeepTruthy([sl]) == if Truthy(sl.text) then [ToAnswer(sl)] else []
  {
    assert [sl][1..] == [];
  }

  /** Filtering distributes over concatenation: the kept answers keep the
      slots' order. */
  lemma {:induction false} KeepTruthyAppend(a: seq<Slot>, b: seq<Slot>)
    ensures KeepTruthy(a + b) == KeepTruthy(a) + KeepTruthy(b)
    decreases |a|
  {
    if a == [] {
      assert a + b == b;
    } else {
      assert (a + b)[0] == a[0];
      assert (a + b)[1..] == a[1..] + b;
      KeepTruthyAppend(a[1..], b);
    }
  }

  function NormalizeQuestion(q: RawQuestion): QuestionData {
    QuestionData(q.qId, q.question, q.timeStart, KeepTruthy(Slots(q)))
  }

  /** The normalised bank: a bare array and a wrapped array are normalised
      record by record; any other payload and a failed fetch give an empty
      bank. */
  function NormalizeBank(f: Fetched): (bank: seq<QuestionData>)
    ensures f.BareList? ==> |bank| == |f.items|
    ensures f.Wrapped? ==> |bank| == |f.questions|
    ensures f.Unrecognised? || f.FetchFailed? ==> bank == []
    ensures f.BareList? ==> forall i :: 0 <= i < |bank| ==> bank[i] == NormalizeQuestion(f.items[i])
    ensures f.Wrapped? ==> forall i :: 0 <= i < |bank| ==> bank[i] == NormalizeQuestion(f.questions[i])
  {
    match f
    case BareList(items) => seq(|items|, i requires 0 <= i < |items| => NormalizeQuestion(items[i]))
    case Wrapped(items) => seq(|items|, i requires 0 <= i < |items| => NormalizeQuestion(items[i]))
    case Unrecognised => []
    case FetchFailed => []
  }

  /** A slot whose key no other slot shares yields an answer with that key
      exactly when it carries text. */
  lemma SlotPresence(slots: seq<Slot>, j: nat)
    requires j < |slots|
    requires forall m :: 0 <= m < |slots| && m != j ==> slots[m].key != slots[j].key
    ensures Truthy(slots[j].text) <==> exists a :: a in KeepTruthy(slots) && a.key == slots[j].key
  {
    var answers := KeepTruthy(slots);
    if Truthy(slots[j].text) {
      assert ToAnswer(slots[j]) in answers;
    }
    if a :| a in answers && a.key == slots[j].key {
      var m :| 0 <= m < |slots| && Truthy(slots[m].text) && a == ToAnswer(slots[m]);
      assert m == j;
    }
  }

  /** A normalised question keeps the record's id, prompt and timecode and
      has at most four answers, each with non-empty text; a slot's key
      appears among the answers exactly when that slot carried text. */
  lemma NormalizedAnswers(raw: RawQuestion)
    ensures var q := NormalizeQuestion(raw);
      && q.id == raw.qId && q.prompt == raw.question && q.rewindAt == raw.timeStart
      && |q.answers| <= 4
      && (forall a :: a in q.answers ==> a.text != "")
      && (forall j :: 0 <= j < 4 ==>
            (Truthy(Slots(raw)[j].text) <==> exists a :: a in q.answers && a.key == Slots(raw)[j].key))
  {
    var slots := Slots(raw);
    var answers := KeepTruthy(slots);
    forall a | a in answers
      ensures a.text != ""
    {
      var m :| 0 <= m < |slots| && Truthy(slots[m].text) && a == ToAnswer(slots[m]);
    }
    forall j | 0 <= j < 4
      ensures Truthy(slots[j].text) <==> exists a :: a in answers && a.key == slots[j].key
    {
      SlotPresence(slots, j);
    }
  }
}
