/**
  The game screen (screens/Game_Page.py): the scoring of an answer, the
  advance to the next question, and the rendering of the current question,
  over the score fields the application object holds. Callbacks that the
  source schedules with `Clock.schedule_once` are taken as happening at once;
  a scheduled `next_question` is reported to the caller, who performs it.
*/
module GamePage {
  import opened Wrappers
  import opened Text
  import opened Store
  import opened AppState
  import opened Random

  /** 0.05 in hundredths. */
  const MultiplierStep: int := 5
  const StreakForRoulette: int := 5

  const Congratulations: string := "Congratulations!"
  const CorrectFlash: string := "Correct!"
  const WrongFlash: string := "Wrong!"
  const NoQuestionsText: string := "No questions available"

  // ---------------------------------------------------------------
  // scoring
  // ---------------------------------------------------------------

  /** `submit_answer` compares the stripped texts exactly, letter case included. */
  predicate IsCorrect(user: string, correct: string) {
    Strip(user) == Strip(correct)
  }

  /** `_process_correct`: a point, 0.05 on the multiplier and one more in the streak; the streak bonus resets the streak unless the round is won. */
  function AfterCorrect(s: Score, required: int): Score {
    var t := Score(s.index, s.points + 1, s.multiplier + MultiplierStep, s.streak + 1);
    if t.points >= required then t
    else if t.streak >= StreakForRoulette then t.(streak := 0)
    else t
  }

  /** `_process_incorrect`: the streak is lost. */
  function AfterIncorrect(s: Score): Score {
    s.(streak := 0)
  }

  /** The answer schedules the switch to the roulette page: it is correct, does not win the round and completes a streak of five. */
  predicate TriggersRoulette(s: Score, correct: bool, required: int) {
    correct && s.points + 1 < required && s.streak + 1 >= StreakForRoulette
  }

  /** `advance_question` on a bank of `n` questions. */
  function Advance(s: Score, n: nat): Score {
    if n == 0 then s else s.(index := (s.index + 1) % n)
  }

  /** `submit_answer`: score the answer, then advance unless the round is won. */
  function Submit(s: Score, correct: bool, required: int, n: nat): Score {
    var t := if correct then AfterCorrect(s, required) else AfterIncorrect(s);
    if t.points < required then Advance(t, n) else t
  }

  /** A correct answer gains a point and 0.05 of multiplier; a wrong one loses the streak and nothing else. */
  lemma SubmitScores(s: Score, correct: bool, required: int, n: nat)
    ensures var r := Submit(s, correct, required, n);
      && r.points == s.points + (if correct then 1 else 0)
      && r.multiplier == s.multiplier + (if correct then MultiplierStep else 0)
      && (!correct ==> r.streak == 0)
      && (correct ==> r.streak == if TriggersRoulette(s, correct, required) then 0 else s.streak + 1)
  {
  }

  /** Points and multiplier never decrease. */
  lemma SubmitMonotone(s: Score, correct: bool, required: int, n: nat)
    ensures Submit(s, correct, required, n).points >= s.points
    ensures Submit(s, correct, required, n).multiplier >= s.multiplier
  {
    SubmitScores(s, correct, required, n);
  }

  /**
    Reaching the goal comes first: the winning answer neither resets the
    streak nor triggers the roulette, and the question does not advance.
  */
  lemma GoalBeforeBonus(s: Score, required: int, n: nat)
    requires s.points + 1 >= required
    ensures Submit(s, true, required, n) == Score(s.index, s.points + 1, s.multiplier + MultiplierStep, s.streak + 1)
    ensures !TriggersRoulette(s, true, required)
  {
  }

  /** While the round is not won the streak stays below five, and the bonus fires exactly on the fifth correct answer in a row. */
  lemma StreakBelowBonus(s: Score, correct: bool, required: int, n: nat)
    requires 0 <= s.streak < StreakForRoulette
    ensures var r := Submit(s, correct, required, n);
      && 0 <= r.streak
      && (r.points < required ==> r.streak < StreakForRoulette)
      && (TriggersRoulette(s, correct, required) <==> correct && r.points < required && s.streak == StreakForRoulette - 1)
  {
  }

  /** After an answer that does not win, the index is inside the bank; a won round keeps it. */
  lemma SubmitIndex(s: Score, correct: bool, required: int, n: nat)
    requires 0 <= s.index
    ensures var r := Submit(s, correct, required, n);
      && 0 <= r.index
      && (r.points < required && n > 0 ==> r.index < n && r.index == (s.index + 1) % n)
      && (r.points >= required || n == 0 ==> r.index == s.index)
  {
  }

  /** A one-question bank always comes back to its only question. */
  lemma SingleQuestion(s: Score, correct: bool, required: int)
    requires Submit(s, correct, required, 1).points < required
    ensures Submit(s, correct, required, 1).index == 0
  {
  }

  // ---------------------------------------------------------------
  // a round
  // ---------------------------------------------------------------

  /** A round: the answers in turn, until the required points are reached (the answer area is then disabled). */
  function Play(s: Score, answers: seq<bool>, required: int, n: nat): Score
    decreases |answers|
  {
    if answers == [] || s.points >= required then s
    else Play(Submit(s, answers[0], required, n), answers[1..], required, n)
  }

  function CountCorrect(answers: seq<bool>): nat
    decreases |answers|
  {
    if answers == [] then 0 else (if answers[0] then 1 else 0) + CountCorrect(answers[1..])
  }

  function Min(a: int, b: int): int {
    if a <= b then a else b
  }

  /** Each correct answer is one point, and a round ends exactly at the required points. */
  lemma {:induction false} PlayPoints(s: Score, answers: seq<bool>, required: int, n: nat)
    requires s.points <= required
    ensures Play(s, answers, required, n).points == Min(required, s.points + CountCorrect(answers))
    decreases |answers|
  {
    if answers != [] && s.points < required {
      SubmitScores(s, answers[0], required, n);
      PlayPoints(Submit(s, answers[0], required, n), answers[1..], required, n);
    }
  }

  /** The number of times a round schedules the roulette. */
  function Roulettes(s: Score, answers: seq<bool>, required: int, n: nat): nat
    decreases |answers|
  {
    if answers == [] || s.points >= required then 0
    else
      var bonus := if TriggersRoulette(s, answers[0], required) then 1 else 0;
      bonus + Roulettes(Submit(s, answers[0], required, n), answers[1..], required, n)
  }

  /** What every state reached from a fresh game satisfies: the streak is at most the points won so far. */
  predicate FromFresh(s: Score) {
    0 <= s.streak <= s.points - StartPoints
  }

  lemma SubmitFromFresh(s: Score, correct: bool, required: int, n: nat)
    requires FromFresh(s)
    ensures FromFresh(Submit(s, correct, required, n))
  {
  }

  /**
    With the starting 100 points and the required 102, a round is won after
    two correct answers, before any streak of five: no round started from
    the default score ever reaches the roulette.
  */
  lemma {:induction false} NoRouletteFromFresh(s: Score, answers: seq<bool>, n: nat)
    requires FromFresh(s)
    ensures Roulettes(s, answers, RequiredPoints, n) == 0
    decreases |answers|
  {
    if answers != [] && s.points < RequiredPoints {
      assert !TriggersRoulette(s, answers[0], RequiredPoints);
      SubmitFromFresh(s, answers[0], RequiredPoints, n);
      NoRouletteFromFresh(Submit(s, answers[0], RequiredPoints, n), answers[1..], n);
    }
  }

  lemma FreshIsFromFresh()
    ensures FromFresh(Fresh)
  {
  }

  // ---------------------------------------------------------------
  // rendering
  // ---------------------------------------------------------------

  /** `choices[0]` when choices is a non-empty list whose first element is a list (the nested format), else choices as stored. */
  function Unwrap(choices: Json): Json {
    if choices.List? && |choices.items| > 0 && choices.items[0].List? then choices.items[0] else choices
  }

  /** Unwrapping undoes the one-level nesting the import and the multiple-choice save write. */
  lemma UnwrapWrap(items: seq<Json>)
    ensures Unwrap(Wrap(items)) == List(items)
  {
  }

  /** Anything that is not a list led by a list is passed through. */
  lemma UnwrapFlat(choices: Json)
    requires !(choices.List? && |choices.items| > 0 && choices.items[0].List?)
    ensures Unwrap(choices) == choices
  {
  }

  /** Python's `repr` of a choice inside a list; strings are quoted with `'` and not escaped. */
  function Repr(j: Json): string
    decreases j
  {
    match j
    case Null => "None"
    case Str(s) => "'" + s + "'"
    case List(xs) => "[" + JoinWith(seq(|xs|, i requires 0 <= i < |xs| => Repr(xs[i])), ", ") + "]"
  }

  function JoinWith(parts: seq<string>, sep: string): string
    decreases |parts|
  {
    if parts == [] then ""
    else if |parts| == 1 then parts[0]
    else parts[0] + sep + JoinWith(parts[1..], sep)
  }

  /** `str(choice)`. */
  function ChoiceText(j: Json): string {
    match j
    case Null => "None"
    case Str(s) => s
    case List(_) => Repr(j)
  }

  /** `[str(c) for c in (list(choices) if choices else [])]`: a string is a list of its characters. */
  function OptionTexts(choices: Json): (r: seq<string>)
    ensures choices.List? ==> |r| == |choices.items|
    ensures choices.Str? ==> |r| == |choices.s|
  {
    match choices
    case Null => []
    case Str(s) => seq(|s|, i requires 0 <= i < |s| => [s[i]])
    case List(xs) => seq(|xs|, i requires 0 <= i < |xs| => ChoiceText(xs[i]))
  }

  /** The answers an import stores are the options offered, in stored order (they are shuffled when shown). */
  lemma OptionsOfStrings(xs: seq<string>)
    ensures OptionTexts(Unwrap(Wrap(Strs(xs)))) == xs
  {
    UnwrapWrap(Strs(xs));
  }

  /** The question types update_middle_layout recognises. */
  datatype Kind = MultipleChoiceKind | TrueFalseKind | ShortAnswerKind | Unknown

  /** The alias sets of update_middle_layout, matched after `lower()`. */
  function KindOf(questionType: string): Kind {
    KindOfLowered(Lower(questionType))
  }

  function KindOfLowered(t: string): Kind {
    if t == "multiple choice" || t == "multiple_choice" || t == "mcq" then MultipleChoiceKind
    else if t == "true/false" || t == "true_false" || t == "tf" then TrueFalseKind
    else if t == "short answer" || t == "short_answer" || t == "short" then ShortAnswerKind
    else Unknown
  }

  /** The three type names the custom-question screen stores are recognised as their own kinds. */
  lemma MultipleChoiceRecognised()
    ensures KindOf("Multiple Choice") == MultipleChoiceKind
  {
    assert Lower("Multiple Choice") == "multiple choice";
  }

  lemma TrueFalseRecognised()
    ensures KindOf("True/False") == TrueFalseKind
  {
    assert Lower("True/False") == "true/false";
  }

  lemma ShortAnswerRecognised()
    ensures KindOf("Short Answer") == ShortAnswerKind
  {
    assert Lower("Short Answer") == "short answer";
  }

  /** The middle area: option buttons, a text entry with a submit button, or the unsupported-type label. */
  datatype Layout = OptionButtons(options: seq<string>) | TextEntry | Unsupported

  /** update_middle_layout, with the multiple-choice options in stored order. */
  function LayoutFor(questionType: string, choices: Json): Layout {
    match KindOf(questionType)
    case MultipleChoiceKind => OptionButtons(OptionTexts(choices))
    case TrueFalseKind => OptionButtons(["True", "False"])
    case ShortAnswerKind => TextEntry
    case Unknown => Unsupported
  }

  /** What next_question shows: the number, the question, the answer the options are checked against, the score labels and the middle area. */
  datatype View =
    | NoQuestions
    | Shown(number: int, text: string, answer: string, points: int, multiplier: int, layout: Layout)

  /** next_question for the question `q` and the score `s`, with the options in stored order. */
  function ViewOf(q: Question, s: Score): View {
    Shown(s.index + 1, Strip(q.question), Strip(q.answer), s.points, s.multiplier,
          LayoutFor(Strip(q.questionType), Unwrap(q.choices)))
  }

  /** Two views agree except for the order of the option buttons (`random.shuffle`). */
  predicate SameUpToOptionOrder(v: View, w: View) {
    v == w ||
    (v.Shown? && w.Shown? && v.layout.OptionButtons? && w.layout.OptionButtons? &&
     v.(layout := w.layout) == w && multiset(v.layout.options) == multiset(w.layout.options))
  }

  /** A true/false question always offers exactly `True` and `False`, whatever its stored choices. */
  lemma TrueFalseOptions(q: Question, s: Score)
    requires KindOf(Strip(q.questionType)) == TrueFalseKind
    ensures ViewOf(q, s).layout == OptionButtons(["True", "False"])
  {
  }

  // ---------------------------------------------------------------
  // the screen
  // ---------------------------------------------------------------

  class Screen {
    const app: App
    /** The text of flash_label. */
    var flash: string
    /** The answer area is disabled because the round is won. */
    var roundOver: bool
    /** How many times the switch to the roulette page has been scheduled. */
    var roulettes: nat

    constructor (app: App)
      ensures this.app == app && flash == "" && !roundOver && roulettes == 0
    {
      this.app := app;
      flash := "";
      roundOver := false;
      roulettes := 0;
    }

    /** `reset_game_state`: the starting score; the bank and the required points are kept. */
    method ResetGameState()
      modifies app
      ensures app.Current() == Fresh && app.Valid()
      ensures app.questions == old(app.questions) && app.requiredPoints == old(app.requiredPoints)
    {
      app.questionIndex := 0;
      app.points := StartPoints;
      app.multiplier := StartMultiplier;
      app.questionsInARow := 0;
    }

    /** `advance_question`: nothing on an empty bank, otherwise the next index, wrapping around; `scheduled` is the call of next_question it schedules. */
    method AdvanceQuestion() returns (scheduled: bool)
      requires app.Valid()
      modifies app
      ensures app.Current() == Advance(old(app.Current()), |app.questions|) && app.Valid()
      ensures app.questions == old(app.questions) && app.requiredPoints == old(app.requiredPoints)
      ensures scheduled <==> app.questions != []
      ensures scheduled ==> app.questionIndex < |app.questions|
    {
      if app.questions == [] {
        return false;
      }
      app.questionIndex := (app.questionIndex + 1) % |app.questions|;
      scheduled := true;
    }

    /** `_process_correct`. */
    method ProcessCorrect()
      modifies app, this
      ensures app.Current() == AfterCorrect(old(app.Current()), app.requiredPoints)
      ensures app.questions == old(app.questions) && app.requiredPoints == old(app.requiredPoints)
      ensures flash == if app.points >= app.requiredPoints then Congratulations else CorrectFlash
      ensures roundOver == (old(roundOver) || app.points >= app.requiredPoints)
      ensures roulettes == old(roulettes) + if TriggersRoulette(old(app.Current()), true, app.requiredPoints) then 1 else 0
    {
      app.points := app.points + 1;
      app.multiplier := app.multiplier + MultiplierStep;
      app.questionsInARow := app.questionsInARow + 1;
      if app.points >= app.requiredPoints {
        flash := Congratulations;
        roundOver := true;
        return;
      }
      flash := CorrectFlash;
      if app.questionsInARow >= StreakForRoulette {
        app.questionsInARow := 0;
        roulettes := roulettes + 1;
      }
    }

    /** `_process_incorrect`. */
    method ProcessIncorrect()
      modifies app, this
      ensures app.Current() == AfterIncorrect(old(app.Current()))
      ensures app.questions == old(app.questions) && app.requiredPoints == old(app.requiredPoints)
      ensures flash == WrongFlash && roundOver == old(roundOver) && roulettes == old(roulettes)
    {
      app.questionsInARow := 0;
      flash := WrongFlash;
    }

    /** `submit_answer`: the score moves as Submit says; `scheduled` is the call of next_question scheduled by the advance. */
    method SubmitAnswer(user: string, correct: string) returns (scheduled: bool)
      requires app.Valid()
      modifies app, this
      ensures app.Current() == Submit(old(app.Current()), IsCorrect(user, correct), app.requiredPoints, |app.questions|)
      ensures app.Valid()
      ensures app.questions == old(app.questions) && app.requiredPoints == old(app.requiredPoints)
      ensures scheduled <==> app.points < app.requiredPoints && app.questions != []
      ensures roulettes == old(roulettes) + if TriggersRoulette(old(app.Current()), IsCorrect(user, correct), app.requiredPoints) then 1 else 0
    {
      if Strip(user) == Strip(correct) {
        ProcessCorrect();
      } else {
        ProcessIncorrect();
      }
      scheduled := false;
      if app.points < app.requiredPoints {
        scheduled := AdvanceQuestion();
      }
    }

    /**
      `next_question`: on an empty bank only the message is shown; otherwise
      an index past the end is reset to 0 and the question at the index is
      shown, its multiple-choice options shuffled.
    */
    method NextQuestion(rng: Rng) returns (v: View)
      requires app.Valid()
      modifies app, this, rng
      ensures app.Valid()
      ensures app.questions == old(app.questions) && app.requiredPoints == old(app.requiredPoints)
      ensures roundOver == old(roundOver) && roulettes == old(roulettes)
      ensures app.questions == [] ==> v == NoQuestions && app.Current() == old(app.Current()) && flash == NoQuestionsText
      ensures app.questions != [] ==>
        && app.Current() == old(app.Current()).(index := if old(app.questionIndex) >= |app.questions| then 0 else old(app.questionIndex))
        && app.questionIndex < |app.questions|
        && flash == old(flash)
        && SameUpToOptionOrder(v, ViewOf(app.questions[app.questionIndex], app.Current()))
    {
      if app.questions == [] {
        flash := NoQuestionsText;
        return NoQuestions;
      }
      if app.questionIndex >= |app.questions| {
        app.questionIndex := 0;
      }
      var q := app.questions[app.questionIndex];
      v := ViewOf(q, app.Current());
      if v.layout.OptionButtons? && KindOf(Strip(q.questionType)) == MultipleChoiceKind {
        var opts := rng.Shuffle(v.layout.options);
        v := v.(layout := OptionButtons(opts));
      }
    }

    /** `reset_and_back`: the starting score, the answer area enabled again, and the first question rendered. */
    method ResetAndBack(rng: Rng) returns (v: View)
      modifies app, this, rng
      ensures app.questions == old(app.questions) && app.requiredPoints == old(app.requiredPoints)
      ensures !roundOver && roulettes == old(roulettes)
      ensures app.Current() == Fresh
      ensures app.questions == [] ==> v == NoQuestions
      ensures app.questions != [] ==> SameUpToOptionOrder(v, ViewOf(app.questions[0], Fresh))
    {
      ResetGameState();
      roundOver := false;
      v := NextQuestion(rng);
    }

    /** `continue_after_roulette`: the game resumes at the question the index names. */
    method ContinueAfterRoulette(rng: Rng) returns (v: View)
      requires app.Valid()
      modifies app, this, rng
      ensures app.questions == old(app.questions) && app.requiredPoints == old(app.requiredPoints)
      ensures roundOver == old(roundOver) && roulettes == old(roulettes)
      ensures app.Valid()
      ensures app.questions == [] ==> v == NoQuestions && app.Current() == old(app.Current())
      ensures app.questions != [] ==>
        && app.Current() == old(app.Current()).(index := if old(app.questionIndex) >= |app.questions| then 0 else old(app.questionIndex))
        && app.questionIndex < |app.questions|
        && SameUpToOptionOrder(v, ViewOf(app.questions[app.questionIndex], app.Current()))
    {
      v := NextQuestion(rng);
    }
  }
}
