/**
  The flashcard deck of the archived desktop version (archive/AllInV2.py):
  the cards created in a session, the review page with its flip and
  navigation buttons, and the typed-answer quiz. The module globals become
  the fields of one object; the widgets the functions configure become the
  text and enabled state they are given.
*/
module Flashcards {
  import opened Text

  datatype Card = Card(question: string, answer: string)

  const FlipCardText: string := "Flip Card"
  const HideAnswerText: string := "Hide Answer"
  const AnswerPlaceholder: string := "Click 'Flip Card' for Answer"
  const NoFlashcardsText: string := "No Flashcards Available \U{1F614}"
  const CreateSomeText: string := "Go back and create some!"
  const TypeYourAnswer: string := "Please type your answer."
  const CorrectText: string := "Correct! \U{1F389}"
  const IncorrectPrefix: string := "Incorrect. The answer was: "

  /** The outcome of save_flashcard, shown in a message box. */
  datatype SaveMessage = Saved(total: nat) | BothRequired

  // ---------------------------------------------------------------
  // the review page
  // ---------------------------------------------------------------

  /** Which of the next, previous and flip buttons are enabled. */
  datatype Buttons = Buttons(next: bool, prev: bool, flip: bool)

  /** The enable rules of update_flashcard_display for a deck of `n` cards shown at `index`. */
  function ButtonsFor(n: nat, index: int): Buttons {
    if n == 0 then Buttons(false, false, false)
    else Buttons(index < n - 1, index > 0, true)
  }

  /** An enabled navigation button always leads to a card of the deck, so its click is never ignored. */
  lemma EnabledButtonsMove(n: nat, index: int)
    requires 0 <= index && (n == 0 || index < n)
    ensures ButtonsFor(n, index).next <==> 0 <= index + 1 < n
    ensures ButtonsFor(n, index).prev <==> 0 <= index - 1 < n
    ensures ButtonsFor(n, index).flip <==> index < n
  {
  }

  /** flip_flashcard on the answer label: the placeholder hides the answer, anything else shows it. */
  function Flipped(shown: string, answer: string): string {
    if shown == answer then AnswerPlaceholder else answer
  }

  /** The flip button's text after a flip. */
  function FlipButtonAfter(shown: string, answer: string): string {
    if shown == answer then FlipCardText else HideAnswerText
  }

  /** Flipping twice from either of its two states comes back to it. */
  lemma FlipTwice(shown: string, answer: string)
    requires shown == AnswerPlaceholder || shown == answer
    ensures Flipped(Flipped(shown, answer), answer) == shown
  {
  }

  /** A flip from the hidden state shows the answer and offers to hide it; from the shown state it hides it again. */
  lemma FlipShowsAnswer(answer: string)
    requires answer != AnswerPlaceholder
    ensures Flipped(AnswerPlaceholder, answer) == answer && FlipButtonAfter(AnswerPlaceholder, answer) == HideAnswerText
    ensures Flipped(answer, answer) == AnswerPlaceholder && FlipButtonAfter(answer, answer) == FlipCardText
  {
  }

  // ---------------------------------------------------------------
  // the quiz
  // ---------------------------------------------------------------

  /** The verdict of check_answer_input on a non-empty stripped answer: equal after `lower()`. */
  predicate QuizMatches(user: string, correct: string) {
    Lower(user) == Lower(correct)
  }

  /** The verdict ignores letter case on both sides. */
  lemma QuizIgnoresCase(user: string, correct: string)
    ensures QuizMatches(Lower(user), correct) == QuizMatches(user, correct)
    ensures QuizMatches(user, Lower(correct)) == QuizMatches(user, correct)
  {
    LowerIdempotent(user);
    LowerIdempotent(correct);
  }

  /**
    The answer save_flashcard stored (stripped) is accepted when typed back
    with any whitespace around it: check_answer_input strips the entry.
  */
  lemma SavedAnswerAccepted(entered: string, pre: string, post: string)
    requires AllSpace(pre) && AllSpace(post)
    ensures QuizMatches(Strip(pre + Strip(entered) + post), Strip(entered))
  {
    StripEnds(entered);
    StripPadded(pre, Strip(entered), post);
  }

  /** What the quiz area shows. */
  datatype QuizScreen = NoCards | Finished | Asking(number: int, total: int, question: string)

  /** update_quiz_display for the deck and the quiz index. */
  function QuizScreenFor(cards: seq<Card>, index: int): (q: QuizScreen)
    requires 0 <= index
    ensures q.Finished? <==> cards != [] && index >= |cards|
    ensures q.Asking? ==> 1 <= q.number <= q.total == |cards| && q.question == cards[q.number - 1].question
  {
    if cards == [] then NoCards
    else if index >= |cards| then Finished
    else Asking(index + 1, |cards|, cards[index].question)
  }

  /** The quiz asks the cards in deck order: starting at 0 and advancing one at a time, step `k` asks card `k` until the deck runs out. */
  lemma QuizInOrder(cards: seq<Card>, k: nat)
    requires cards != []
    ensures k < |cards| ==> QuizScreenFor(cards, k).Asking? && QuizScreenFor(cards, k).question == cards[k].question
    ensures k >= |cards| ==> QuizScreenFor(cards, k) == Finished
  {
  }

  // ---------------------------------------------------------------
  // the session
  // ---------------------------------------------------------------

  class Session {
    var cards: seq<Card>
    var cardIndex: int
    var quizIndex: int
    var correctAnswer: string
    /** `current_quiz_entry` is not `None`. */
    var hasQuizEntry: bool

    /** The texts of the two entries of the creation page. */
    var questionEntry: string
    var answerEntry: string

    /** The review page: the two labels, the flip button's text and the three buttons' states. */
    var questionText: string
    var answerText: string
    var flipText: string
    var buttons: Buttons

    /** The quiz page: the entry's text, the feedback label and the two buttons' states. */
    var quizEntry: string
    var feedback: string
    var screen: QuizScreen
    var nextQuestionEnabled: bool
    var checkEnabled: bool

    /** The review index is 0 or points at a card, and the flip button is only enabled on a card. */
    predicate Valid()
      reads this
    {
      0 <= quizIndex &&
      (cardIndex == 0 || 0 <= cardIndex < |cards|) &&
      (buttons.flip ==> cardIndex < |cards|)
    }

    /** The module-level state: no cards and both indices at 0. */
    constructor ()
      ensures Valid() && cards == [] && cardIndex == 0 && quizIndex == 0 && correctAnswer == "" && !hasQuizEntry
    {
      cards := [];
      cardIndex := 0;
      quizIndex := 0;
      correctAnswer := "";
      hasQuizEntry := false;
      questionEntry, answerEntry := "", "";
      questionText, answerText, flipText := "", "", FlipCardText;
      buttons := Buttons(false, false, false);
      quizEntry, feedback := "", "";
      screen := NoCards;
      nextQuestionEnabled, checkEnabled := false, false;
    }

    /**
      `save_flashcard`: both stripped entries non-empty appends the card and
      clears the entries; otherwise nothing changes but the error message.
    */
    method SaveFlashcard() returns (msg: SaveMessage)
      requires Valid()
      modifies this
      ensures Valid()
      ensures var q, a := Strip(old(questionEntry)), Strip(old(answerEntry));
        if q != "" && a != "" then
          && cards == old(cards) + [Card(q, a)]
          && msg == Saved(|cards|)
          && questionEntry == "" && answerEntry == ""
        else
          cards == old(cards) && msg == BothRequired && questionEntry == old(questionEntry) && answerEntry == old(answerEntry)
      ensures cardIndex == old(cardIndex) && quizIndex == old(quizIndex) && buttons == old(buttons)
    {
      var question := Strip(questionEntry);
      var answer := Strip(answerEntry);
      if question != "" && answer != "" {
        cards := cards + [Card(question, answer)];
        questionEntry := "";
        answerEntry := "";
        msg := Saved(|cards|);
      } else {
        msg := BothRequired;
      }
    }

    /** `update_flashcard_display`: the current card's question with its answer hidden, and the enable rules. */
    method UpdateFlashcardDisplay()
      requires Valid()
      modifies this
      ensures Valid()
      ensures buttons == ButtonsFor(|cards|, cardIndex)
      ensures cards == [] ==> questionText == NoFlashcardsText && answerText == CreateSomeText && flipText == old(flipText)
      ensures cards != [] ==>
        questionText == cards[cardIndex].question && answerText == AnswerPlaceholder && flipText == FlipCardText
      ensures cards == old(cards) && cardIndex == old(cardIndex) && quizIndex == old(quizIndex)
    {
      if cards == [] {
        questionText := NoFlashcardsText;
        answerText := CreateSomeText;
        buttons := Buttons(false, false, false);
        return;
      }
      flipText := FlipCardText;
      questionText := cards[cardIndex].question;
      answerText := AnswerPlaceholder;
      buttons := Buttons(cardIndex < |cards| - 1, cardIndex > 0, true);
    }

    /** `navigate_flashcard`: a move that stays inside the deck is made and shown; any other is ignored. */
    method NavigateFlashcard(direction: int)
      requires Valid()
      modifies this
      ensures Valid()
      ensures cards == old(cards) && quizIndex == old(quizIndex)
      ensures 0 <= old(cardIndex) + direction < |cards| ==>
        && cardIndex == old(cardIndex) + direction
        && buttons == ButtonsFor(|cards|, cardIndex)
        && questionText == cards[cardIndex].question && answerText == AnswerPlaceholder
      ensures !(0 <= old(cardIndex) + direction < |cards|) ==> unchanged(this)
    {
      var newIndex := cardIndex + direction;
      if 0 <= newIndex < |cards| {
        cardIndex := newIndex;
        UpdateFlashcardDisplay();
      }
    }

    /** `flip_flashcard`, reachable only through the enabled flip button. */
    method FlipFlashcard()
      requires Valid() && buttons.flip
      modifies this
      ensures Valid()
      ensures cards == old(cards) && cardIndex == old(cardIndex) && buttons == old(buttons) && questionText == old(questionText)
      ensures answerText == Flipped(old(answerText), cards[cardIndex].answer)
      ensures flipText == FlipButtonAfter(old(answerText), cards[cardIndex].answer)
    {
      var card := cards[cardIndex];
      if answerText == card.answer {
        answerText := AnswerPlaceholder;
        flipText := FlipCardText;
      } else {
        answerText := card.answer;
        flipText := HideAnswerText;
      }
    }

    /**
      `check_answer_input`: nothing without an entry; an empty stripped
      answer only prompts; otherwise the case-insensitive verdict, then the
      next button is enabled and the check button disabled.
    */
    method CheckAnswerInput()
      modifies this
      ensures cards == old(cards) && quizIndex == old(quizIndex) && correctAnswer == old(correctAnswer)
      ensures !hasQuizEntry ==> unchanged(this)
      ensures hasQuizEntry && Strip(quizEntry) == "" ==>
        feedback == TypeYourAnswer && nextQuestionEnabled == old(nextQuestionEnabled) && checkEnabled == old(checkEnabled)
      ensures hasQuizEntry && Strip(quizEntry) != "" ==>
        && feedback == (if QuizMatches(Strip(quizEntry), correctAnswer) then CorrectText else IncorrectPrefix + correctAnswer)
        && nextQuestionEnabled && !checkEnabled
      ensures hasQuizEntry == old(hasQuizEntry) && quizEntry == old(quizEntry) && Valid() == old(Valid())
    {
      if !hasQuizEntry {
        return;
      }
      var user := Strip(quizEntry);
      if user == "" {
        feedback := TypeYourAnswer;
        return;
      }
      if Lower(user) == Lower(correctAnswer) {
        feedback := CorrectText;
      } else {
        feedback := IncorrectPrefix + correctAnswer;
      }
      nextQuestionEnabled := true;
      checkEnabled := false;
    }

    /**
      `update_quiz_display`: the empty-deck or finished screens, or the card
      at the quiz index with a fresh entry, an empty feedback label, the next
      button disabled and the check button enabled.
    */
    method UpdateQuizDisplay()
      requires Valid()
      modifies this
      ensures Valid()
      ensures screen == QuizScreenFor(cards, quizIndex)
      ensures screen.Asking? ==>
        && correctAnswer == cards[quizIndex].answer
        && hasQuizEntry && quizEntry == "" && feedback == ""
        && !nextQuestionEnabled && checkEnabled
      ensures !screen.Asking? ==> correctAnswer == old(correctAnswer) && hasQuizEntry == old(hasQuizEntry)
      ensures cards == old(cards) && cardIndex == old(cardIndex) && quizIndex == old(quizIndex) && buttons == old(buttons)
    {
      if cards == [] {
        screen := NoCards;
        return;
      }
      if quizIndex >= |cards| {
        screen := Finished;
        return;
      }
      var card := cards[quizIndex];
      correctAnswer := card.answer;
      screen := Asking(quizIndex + 1, |cards|, card.question);
      quizEntry := "";
      hasQuizEntry := true;
      feedback := "";
      nextQuestionEnabled := false;
      checkEnabled := true;
    }

    /** `advance_quiz`: the next card, or the finished screen after the last. */
    method AdvanceQuiz()
      requires Valid()
      modifies this
      ensures Valid()
      ensures quizIndex == old(quizIndex) + 1
      ensures screen == QuizScreenFor(cards, quizIndex)
      ensures cards == old(cards) && cardIndex == old(cardIndex)
    {
      quizIndex := quizIndex + 1;
      UpdateQuizDisplay();
    }

    /** `show_quiz`: the quiz starts again from the first card. */
    method ShowQuiz()
      requires Valid()
      modifies this
      ensures Valid()
      ensures quizIndex == 0 && screen == QuizScreenFor(cards, 0)
      ensures cards != [] ==> correctAnswer == cards[0].answer && checkEnabled && !nextQuestionEnabled
      ensures cards == old(cards) && cardIndex == old(cardIndex)
    {
      quizIndex := 0;
      UpdateQuizDisplay();
    }

    /** `show_start_page`: the review starts again from the first card, on new empty labels and a new "Flip Card" button. */
    method ShowStartPage()
      requires Valid()
      modifies this
      ensures Valid()
      ensures cardIndex == 0 && buttons == ButtonsFor(|cards|, 0)
      ensures cards == [] ==> questionText == NoFlashcardsText && answerText == CreateSomeText && flipText == FlipCardText
      ensures cards != [] ==> questionText == cards[0].question && answerText == AnswerPlaceholder && flipText == FlipCardText
      ensures cards == old(cards) && quizIndex == old(quizIndex)
    {
      cardIndex := 0;
      questionText := "";
      answerText := "";
      flipText := FlipCardText;
      UpdateFlashcardDisplay();
    }
  }
}
