/**
  The application object of main.py: the question bank the game plays
  from and the game's score fields, which the game screen updates in place.
  The JSON file is passed in as its decoded contents (`None` when it cannot
  be opened or parsed).
*/
module AppState {
  import opened Wrappers
  import opened Store

  /**
    One question as load_questions builds it: the three text fields are
    copied from the stored object, and `choices` is the stored value, or
    `Null` (Python's `None`) when the object has no `choices` key.
  */
  datatype Question = Question(questionType: string, question: string, answer: string, choices: Json)

  /** The object has the three keys load_questions reads with `obj[...]`. */
  predicate HasFields(r: StoredRecord) {
    r.questionType.Some? && r.question.Some? && r.answer.Some?
  }

  /** One pass of the loop of load_questions; `None` where `obj[...]` raises KeyError. */
  function LoadRecord(r: StoredRecord): Option<Question> {
    if HasFields(r) then Some(Question(r.questionType.value, r.question.value, r.answer.value, r.choices.GetOr(Null)))
    else None
  }

  /** The list load_questions assigns to `QUESTIONS`, or `None` when some object lacks a key. */
  function LoadAll(data: seq<StoredRecord>): (r: Option<seq<Question>>)
    ensures r.Some? <==> forall k :: 0 <= k < |data| ==> HasFields(data[k])
    ensures r.Some? ==> |r.value| == |data| && forall k :: 0 <= k < |data| ==> Some(r.value[k]) == LoadRecord(data[k])
    decreases |data|
  {
    if data == [] then Some([])
    else if !HasFields(data[0]) then None
    else
      var rest := LoadAll(data[1..]);
      assert forall k :: 1 <= k < |data| ==> data[1..][k - 1] == data[k];
      if rest.None? then None else Some([LoadRecord(data[0]).value] + rest.value)
  }

  /** The score fields: `QUESTION_INDEX`, `POINTS`, `MULTIPLIER` (in hundredths) and `QUESTIONS_IN_A_ROW`. */
  datatype Score = Score(index: int, points: int, multiplier: int, streak: int)

  const StartPoints: int := 100
  const RequiredPoints: int := 102
  /** 1.0 in hundredths. */
  const StartMultiplier: int := 100

  /** The score a new game starts from. */
  const Fresh: Score := Score(0, StartPoints, StartMultiplier, 0)

  class App {
    var questions: seq<Question>
    var questionIndex: int
    var points: int
    var requiredPoints: int
    var multiplier: int
    var questionsInARow: int

    function Current(): Score
      reads this
    {
      Score(questionIndex, points, multiplier, questionsInARow)
    }

    /** The question index is never negative (Python would index from the end). */
    predicate Valid()
      reads this
    {
      questionIndex >= 0
    }

    /** `AllInApp.__init__`: an empty bank and the starting score; the call to load_questions that follows is LoadQuestions. */
    constructor ()
      ensures questions == [] && Current() == Fresh && requiredPoints == RequiredPoints && Valid()
    {
      questions := [];
      questionIndex := 0;
      points := StartPoints;
      requiredPoints := RequiredPoints;
      multiplier := StartMultiplier;
      questionsInARow := 0;
    }

    /**
      `load_questions` on the decoded file: one question per stored object,
      in order. A missing file or a missing key raises before `QUESTIONS`
      is assigned, so the bank is left as it was.
    */
    method LoadQuestions(stored: Option<seq<StoredRecord>>) returns (ok: bool)
      modifies this
      ensures ok <==> stored.Some? && LoadAll(stored.value).Some?
      ensures ok ==> questions == LoadAll(stored.value).value
      ensures !ok ==> questions == old(questions)
      ensures Current() == old(Current()) && requiredPoints == old(requiredPoints)
    {
      if stored.None? {
        return false;
      }
      var data := stored.value;
      var loaded: seq<Question> := [];
      var i := 0;
      while i < |data|
        invariant 0 <= i <= |data| && |loaded| == i
        invariant forall k :: 0 <= k < i ==> HasFields(data[k]) && Some(loaded[k]) == LoadRecord(data[k])
        invariant unchanged(this)
      {
        var obj := data[i];
        if !HasFields(obj) {
          return false;
        }
        var question := Question(obj.questionType.value, obj.question.value, obj.answer.value, obj.choices.GetOr(Null));
        loaded := loaded + [question];
        i := i + 1;
      }
      assert LoadAll(data).value == loaded;
      questions := loaded;
      ok := true;
    }
  }
}
