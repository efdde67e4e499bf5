/**
  How a stored question comes back in the game: the records the import and
  the custom-question form write are the ones load_questions reads and
  next_question renders. These lemmas connect the writers in
  screens/Custom_Page.py with the reader in main.py and the renderer in
  screens/Game_Page.py.
*/
module Playback {
  import opened Wrappers
  import opened Text
  import opened Store
  import opened AppState
  import CP = CustomPage
  import opened GamePage

  /** The game's reading of the type names the custom-question screen writes. */
  function PlayedAs(k: CP.Kind): Kind {
    match k
    case MultipleChoiceKind => MultipleChoiceKind
    case TrueFalseKind => TrueFalseKind
    case ShortAnswerKind => ShortAnswerKind
  }

  /** Every type name written to the store is recognised by the game's dispatch as the same kind. */
  lemma TypeNamesPlay(k: CP.Kind)
    ensures KindOf(Strip(CP.TypeName(k))) == PlayedAs(k)
  {
    var t := CP.TypeName(k);
    StripTrimmed(t);
    match k
    case MultipleChoiceKind => MultipleChoiceRecognised();
    case TrueFalseKind => TrueFalseRecognised();
    case ShortAnswerKind => ShortAnswerRecognised();
  }

  /** An option the player picks or types is judged correct when it is the stored answer. */
  lemma AnswerItselfCorrect(answer: string)
    ensures IsCorrect(answer, Strip(answer))
  {
    StripIdempotent(answer);
  }

  /** The question an imported record shows is the normalised question. */
  lemma ImportedQuestionText(question: string, answers: seq<string>, s: Score)
    requires answers != []
    ensures LoadRecord(CP.ImportedRecord(question, answers)).Some?
    ensures ViewOf(LoadRecord(CP.ImportedRecord(question, answers)).value, s).text == CP.Normalize(question)
    ensures ViewOf(LoadRecord(CP.ImportedRecord(question, answers)).value, s).answer == Strip(answers[0])
  {
    CP.ImportedRecordShape(question, answers);
    StripIdempotent(ReplaceQuotes(question));
  }

  /** An imported multiple-choice question offers the block's answers as its options. */
  lemma ImportedMultipleChoicePlays(question: string, answers: seq<string>, s: Score)
    requires answers != [] && CP.Classify(answers) == CP.MultipleChoiceKind
    ensures LoadRecord(CP.ImportedRecord(question, answers)).Some?
    ensures ViewOf(LoadRecord(CP.ImportedRecord(question, answers)).value, s).layout == OptionButtons(answers)
  {
    CP.ImportedRecordShape(question, answers);
    TypeNamesPlay(CP.MultipleChoiceKind);
    OptionsOfStrings(answers);
  }

  /** An imported true/false question offers `True` and `False`. */
  lemma ImportedTrueFalsePlays(question: string, answers: seq<string>, s: Score)
    requires answers != [] && CP.Classify(answers) == CP.TrueFalseKind
    ensures LoadRecord(CP.ImportedRecord(question, answers)).Some?
    ensures ViewOf(LoadRecord(CP.ImportedRecord(question, answers)).value, s).layout == OptionButtons(["True", "False"])
  {
    CP.ImportedRecordShape(question, answers);
    TypeNamesPlay(CP.TrueFalseKind);
  }

  /** An imported short-answer question is answered in the text entry. */
  lemma ImportedShortAnswerPlays(question: string, answers: seq<string>, s: Score)
    requires answers != [] && CP.Classify(answers) == CP.ShortAnswerKind
    ensures LoadRecord(CP.ImportedRecord(question, answers)).Some?
    ensures ViewOf(LoadRecord(CP.ImportedRecord(question, answers)).value, s).layout == TextEntry
  {
    CP.ImportedRecordShape(question, answers);
    TypeNamesPlay(CP.ShortAnswerKind);
  }

  /**
    An imported question loads, is played as the kind the import gave it,
    shows its normalised question, and offers its correct answer: among the
    option buttons for multiple choice (the options are the block's answers)
    and true/false, through the text entry for a short answer.
  */
  lemma ImportedQuestionPlays(question: string, answers: seq<string>, s: Score)
    requires answers != []
    ensures LoadRecord(CP.ImportedRecord(question, answers)).Some?
    ensures var v := ViewOf(LoadRecord(CP.ImportedRecord(question, answers)).value, s);
      && v.text == CP.Normalize(question)
      && (CP.Classify(answers) == CP.MultipleChoiceKind ==> v.layout == OptionButtons(answers))
      && (CP.Classify(answers) == CP.TrueFalseKind ==> v.layout == OptionButtons(["True", "False"]))
      && (CP.Classify(answers) == CP.ShortAnswerKind ==> v.layout == TextEntry)
      && (v.layout.OptionButtons? ==> answers[0] in v.layout.options)
      && IsCorrect(answers[0], v.answer)
  {
    ImportedQuestionText(question, answers, s);
    AnswerItselfCorrect(answers[0]);
    match CP.Classify(answers)
    case MultipleChoiceKind => ImportedMultipleChoicePlays(question, answers, s);
    case TrueFalseKind => ImportedTrueFalsePlays(question, answers, s);
    case ShortAnswerKind => ImportedShortAnswerPlays(question, answers, s);
  }

  /** A saved multiple-choice question offers the filled inputs, the first being the answer. */
  lemma SavedMultipleChoicePlays(f: CP.Form, s: Score)
    requires CP.AcceptsAsWritten(f) && f.questionType == CP.MultipleChoice && f.choiceInputs != []
    ensures LoadRecord(CP.FormRecord(f)).Some?
    ensures var v := ViewOf(LoadRecord(CP.FormRecord(f)).value, s);
      && v.layout == OptionButtons(CP.FilledChoices(f.choiceInputs))
      && v.layout.options != []
      && IsCorrect(v.layout.options[0], v.answer)
  {
    TypeNamesPlay(CP.MultipleChoiceKind);
    var filled := CP.FilledChoices(f.choiceInputs);
    OptionsOfStrings(filled);
    AnswerItselfCorrect(filled[0]);
  }

  /**
    A saved true/false question offers `True` and `False`. A value chosen in
    the dropdown is the correct one; a form saved with the dropdown still at
    "Select Answer" (which on_save as written lets through) stores an empty
    answer, and then neither option is ever judged correct.
  */
  lemma SavedTrueFalsePlays(f: CP.Form, s: Score)
    requires f.questionType == CP.TrueFalse
    ensures LoadRecord(CP.FormRecord(f)).Some?
    ensures var v := ViewOf(LoadRecord(CP.FormRecord(f)).value, s);
      && v.layout == OptionButtons(["True", "False"])
      && (f.dropdown != CP.SelectAnswer ==> IsCorrect(f.dropdown, v.answer))
      && (f.dropdown == "True" || f.dropdown == "False" ==> f.dropdown in v.layout.options)
      && (f.dropdown == CP.SelectAnswer ==>
            v.answer == "" && forall k :: 0 <= k < |v.layout.options| ==> !IsCorrect(v.layout.options[k], v.answer))
  {
    TypeNamesPlay(CP.TrueFalseKind);
    AnswerItselfCorrect(f.dropdown);
    StripTrimmed("True");
    StripTrimmed("False");
    StripTrimmed("");
  }

  /** A saved short-answer question is answered by typing the saved answer back. */
  lemma SavedShortAnswerPlays(f: CP.Form, s: Score)
    requires f.questionType == CP.ShortAnswer
    ensures LoadRecord(CP.FormRecord(f)).Some?
    ensures var v := ViewOf(LoadRecord(CP.FormRecord(f)).value, s);
      v.layout == TextEntry && IsCorrect(f.answer, v.answer)
  {
    TypeNamesPlay(CP.ShortAnswerKind);
    StripIdempotent(f.answer);
  }

  // ---------------------------------------------------------------
  // shuffled records show the same question
  // ---------------------------------------------------------------

  function Texts(xs: seq<Json>): (r: seq<string>)
    ensures |r| == |xs|
  {
    seq(|xs|, i requires 0 <= i < |xs| => ChoiceText(xs[i]))
  }

  lemma TextsAppend(a: seq<Json>, b: seq<Json>)
    ensures Texts(a + b) == Texts(a) + Texts(b)
  {
  }

  /** Reordering the choices reorders their texts the same way. */
  lemma {:induction false} TextsMultiset(xs: seq<Json>, ys: seq<Json>)
    requires multiset(xs) == multiset(ys)
    ensures multiset(Texts(xs)) == multiset(Texts(ys))
    decreases |xs|
  {
    if xs == [] {
      assert |ys| == |multiset(ys)| == 0;
    } else {
      var x := xs[0];
      assert x in multiset(ys);
      var j :| 0 <= j < |ys| && ys[j] == x;
      var rest := ys[..j] + ys[j + 1..];
      assert ys == ys[..j] + [x] + ys[j + 1..];
      assert xs == [x] + xs[1..];
      assert multiset(ys) == multiset(ys[..j]) + multiset{x} + multiset(ys[j + 1..]);
      assert multiset(rest) == multiset(ys[..j]) + multiset(ys[j + 1..]);
      assert multiset(xs) == multiset{x} + multiset(xs[1..]);
      assert multiset(xs[1..]) == multiset(xs) - multiset{x};
      assert multiset(rest) == multiset(ys) - multiset{x};
      TextsMultiset(xs[1..], rest);
      TextsAppend([x], xs[1..]);
      TextsAppend(ys[..j] + [x], ys[j + 1..]);
      TextsAppend(ys[..j], [x]);
      TextsAppend(ys[..j], ys[j + 1..]);
    }
  }

  /**
    Two records that agree up to the order of their wrapped choices (the
    effect of the shuffles in the import and in on_save) load to questions
    that are shown alike, up to the order of the option buttons.
  */
  lemma ShuffledRecordsShowAlike(r: StoredRecord, t: StoredRecord, s: Score)
    requires SameUpToChoiceOrder(r, t) && LoadRecord(t).Some?
    ensures LoadRecord(r).Some?
    ensures SameUpToOptionOrder(ViewOf(LoadRecord(r).value, s), ViewOf(LoadRecord(t).value, s))
  {
    if r.choices != t.choices {
      var a, b := Inner(r.choices.value), Inner(t.choices.value);
      assert Unwrap(r.choices.value) == List(a);
      assert Unwrap(t.choices.value) == List(b);
      assert OptionTexts(List(a)) == Texts(a);
      assert OptionTexts(List(b)) == Texts(b);
      TextsMultiset(a, b);
    }
  }
}
