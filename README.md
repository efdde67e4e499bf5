# All-In quiz game, modelled in Dafny

All-In is a quiz game written with Kivy. A player answers multiple-choice, true/false and
short-answer questions from a question bank stored as a JSON file. Each correct answer
earns a point and raises a multiplier; a streak of correct answers would send the player
to a roulette wheel. Questions enter the bank in two ways:

- through a custom-question form;
- by importing PDF files whose text holds `Question N: ... Answer: ...` blocks.

An older single-file version of the app had a flashcard review page and a flashcard quiz.

This project models:

- `main.py`: the application object, with its question bank and score fields (module `AppState`).
- `screens/Game_Page.py`: the game screen (module `GamePage`):
  - scoring and the streak bonus;
  - the question-type dispatch;
  - how stored choices are unwrapped and rendered.
- `roulette.py`: the roulette wheel (module `Roulette`):
  - the pocket table and the colours;
  - the pocket under the pointer;
  - the spin animation, frame by frame.
- `screens/Custom_Page.py`: the custom-question screen (module `CustomPage`):
  - `normalize_text`;
  - the PDF import `files_chosen`, with the question-block pattern in module `Scanner`;
  - `remove_question`;
  - the form's `on_save`.
- `archive/AllInV2.py`: the flashcard screens (module `Flashcards`).

Supporting modules:

- `Text` models the Python string operations the code relies on: `strip`, `lower`, `replace`, `split`.
- `Store` models the shape of a stored JSON object.
- `Random` stands in for the random generator.
- `Playback` connects the modules. Its lemmas show that what the import and the form write is what the game reads back and shows.

Stateful code is modelled as classes whose methods update fields under `modifies`:

- `App`, `Screen`, `Wheel`, `Session` and `QuestionForm`;
- the loops of `load_questions`, `files_chosen` and the page extraction.

Each method is proved against a specification function (`LoadAll`, `Submit`, `ViewOf`, `Import`,
`FinalAngle`, `QuizScreenFor`, `FormRecord`). The properties are proved as lemmas about those
functions.

Where the code differs from its design notes, the model follows the code:

- **The roulette can never trigger.** The game starts from 100 points and needs 102. A streak of
  five correct answers would reach the goal before the bonus could fire (`GamePage.NoRouletteFromFresh`).
- **`on_save` runs no duplicate check.** Only the PDF import skips known questions.
- **True/false choices are stored in two shapes.** `on_save` stores them flat as `["True", "False"]`.
  The import stores them wrapped as `[["True", "False"]]`.
- **`on_save` judges a true/false form by the hidden short-answer field.** `CustomPage.QuestionForm.OnSave`
  models that validation as written; `OnSaveCorrected` is the evidently intended one (see Findings).
- **The import stores short-answer choices unwrapped.** It writes `[None]`, while multiple-choice and
  true/false choices are wrapped as `[[...]]`.
- **`remove_question` does not use `normalize_text`.** It compares `strip().lower()` of the
  question texts, so curly quotes are not straightened before comparing.

## Model

| member | source | states |
|---|---|---|
| AppState.LoadAll | All-In/main.py:55-69 | the bank loads exactly when every stored object has the three keys; it then has one question per object, in order, each built from its object's fields with `choices` defaulting to None |
| AppState.App.constructor | All-In/main.py:35-44 | a new app has an empty bank, index 0, 100 points, 102 required points, multiplier 1.0 and no streak |
| AppState.App.LoadQuestions | All-In/main.py:55-69 | succeeds exactly when the file decodes and every object has its keys, and the bank becomes LoadAll of the file; on failure the bank is unchanged; the score is never touched |
| GamePage.SubmitScores | All-In/screens/Game_Page.py:359-411 | a correct answer adds one point and 0.05 to the multiplier; a wrong answer resets the streak and changes nothing else |
| GamePage.SubmitMonotone | All-In/screens/Game_Page.py:374-411 | points and multiplier never decrease |
| GamePage.GoalBeforeBonus | All-In/screens/Game_Page.py:383-406 | a correct answer that reaches the goal keeps its streak and never schedules the roulette |
| GamePage.StreakBelowBonus | All-In/screens/Game_Page.py:374-411 | from a streak below five, the streak stays below five unless the round is won, and the roulette fires exactly on the fifth correct answer in a row |
| GamePage.SubmitIndex | All-In/screens/Game_Page.py:238-244 | after an answer that does not win the round, the index lies within the bank; a won round keeps the index |
| GamePage.SingleQuestion | All-In/screens/Game_Page.py:238-244 | with a one-question bank the index always wraps back to 0 |
| GamePage.PlayPoints | All-In/screens/Game_Page.py:359-397 | over a round, points equal the starting points plus the number of correct answers, capped at the required points |
| GamePage.SubmitFromFresh | All-In/screens/Game_Page.py:374-411 | every answer keeps the streak at most the points won since the start |
| GamePage.NoRouletteFromFresh | All-In/screens/Game_Page.py:383-406 | starting from a fresh game with 102 required points, no sequence of answers ever schedules the roulette |
| GamePage.FreshIsFromFresh | All-In/screens/Game_Page.py:231-236 | the starting score satisfies the streak-versus-points invariant |
| GamePage.UnwrapWrap | All-In/screens/Game_Page.py:339-344 | unwrapping undoes the one-level nesting that the import and multiple-choice saves write |
| GamePage.UnwrapFlat | All-In/screens/Game_Page.py:339-344 | choices that are not a list led by a list are used as stored |
| GamePage.OptionTexts | All-In/screens/Game_Page.py:254-268 | one option per list element, or one per character when choices is a string |
| GamePage.OptionsOfStrings | All-In/screens/Game_Page.py:254-268 | the options shown for wrapped string choices are exactly those strings, in order |
| GamePage.MultipleChoiceRecognised | All-In/screens/Game_Page.py:250-256 | the stored name "Multiple Choice" is dispatched to the option buttons |
| GamePage.TrueFalseRecognised | All-In/screens/Game_Page.py:270-276 | the stored name "True/False" is dispatched as a true/false question |
| GamePage.ShortAnswerRecognised | All-In/screens/Game_Page.py:278-295 | the stored name "Short Answer" is dispatched to the text entry |
| GamePage.TrueFalseOptions | All-In/screens/Game_Page.py:270-276 | a true/false question always offers exactly True and False, whatever its stored choices |
| GamePage.Screen.constructor | All-In/screens/Game_Page.py:231-236 | a new screen is bound to the app, shows no flash and has scheduled no roulette |
| GamePage.Screen.ResetGameState | All-In/screens/Game_Page.py:231-236 | the score returns to the fresh score; the bank and the required points are kept |
| GamePage.Screen.AdvanceQuestion | All-In/screens/Game_Page.py:238-244 | nothing happens on an empty bank; otherwise the index moves to the next question, wrapping around, and a redraw is scheduled |
| GamePage.Screen.ProcessCorrect | All-In/screens/Game_Page.py:374-406 | the score moves as AfterCorrect; the flash reads "Correct!", or the congratulations once the goal is reached, which also ends the round; the roulette is scheduled exactly when TriggersRoulette holds |
| GamePage.Screen.ProcessIncorrect | All-In/screens/Game_Page.py:408-411 | the streak is lost, the flash reads "Wrong!", and nothing else changes |
| GamePage.Screen.SubmitAnswer | All-In/screens/Game_Page.py:359-372 | the score moves as Submit on the stripped, case-sensitive comparison; the index stays valid; a next question is scheduled exactly when the round is not won and the bank is not empty |
| GamePage.Screen.NextQuestion | All-In/screens/Game_Page.py:311-353 | on an empty bank only the no-questions message; otherwise an index past the end is reset to 0, and the view is ViewOf that question up to the order of the shuffled options |
| GamePage.Screen.ResetAndBack | All-In/screens/Game_Page.py:439-446 | the fresh score, the answer area enabled again, and the first question shown |
| GamePage.Screen.ContinueAfterRoulette | All-In/screens/Game_Page.py:448-450 | the game resumes at the question the index names, with the score unchanged apart from the index reset |
| Roulette.NumbersArePockets | All-In/roulette.py:11-15 | the table lists pockets 0 to 36, starting with 0, and Position is its inverse |
| Roulette.NumbersPermutation | All-In/roulette.py:11-15 | no number appears twice, and a number is on the wheel exactly when it lies between 0 and 36 |
| Roulette.ColorsAlternate | All-In/roulette.py:17 | one colour per pocket; only the zero pocket is green; every other pocket is red at an even position and dark at an odd one, so neighbouring non-zero pockets differ in colour |
| Roulette.Mod360 | All-In/roulette.py:101 | the float remainder by 360 always lies in [0, 360) |
| Roulette.Mod360Shift | All-In/roulette.py:75 | adding a full turn does not change the remainder |
| Roulette.Mod360InRange | All-In/roulette.py:75 | an angle already in [0, 360) is its own remainder |
| Roulette.WinningIndex | All-In/roulette.py:70-77 | the index computed for any final angle lies within the table |
| Roulette.WinningIndexNoWrap | All-In/roulette.py:75-76 | the final `% num_slices` never changes the slice number |
| Roulette.WinningIsPocket | All-In/roulette.py:70-77 | the winning number is always a pocket of the wheel |
| Roulette.WinningPeriodic | All-In/roulette.py:70-77 | final angles a full turn apart win the same pocket |
| Roulette.EveryPocketCanWin | All-In/roulette.py:70-77 | for every pocket there is a stopping angle at which it wins |
| Roulette.CentredSliceWins | All-In/roulette.py:75-76 | the pointer reads slice `i` when the middle of slice `i` is under it |
| Roulette.SlowsTo | All-In/roulette.py:103-105 | each frame keeps the speed positive and lowers it; above the stop speed, the speed in thousandths of a degree strictly decreases |
| Roulette.FinalAngle | All-In/roulette.py:92-111 | the angle at which the animation stops lies in [0, 360) |
| Roulette.Wheel.constructor | All-In/roulette.py:25-26 | the wheel starts at angle 0, not spinning, with the result label reading "Ready to spin!" |
| Roulette.Wheel.Turn | All-In/roulette.py:101-103 | the angle advances by the speed modulo 360, the remaining spin total drops by the speed, and the speed is multiplied by the deceleration factor |
| Roulette.Wheel.Frame | All-In/roulette.py:92-111 | one animation frame: a follow-up frame is scheduled exactly when the speed is still above 0.3; otherwise the wheel stops and shows the winning number at its angle |
| Roulette.Wheel.Spin | All-In/roulette.py:79-113 | a spin during a spin changes nothing; otherwise it sets up the spin from the two draws, shows "Spinning...", and draws the first frame |
| Roulette.Wheel.RunFrames | All-In/roulette.py:92-111 | the scheduled frames end with the wheel stopped at FinalAngle, showing the pocket there |
| Roulette.Wheel.SpinToEnd | All-In/roulette.py:79-113 | a spin from rest stops at FinalAngle of the old angle, speed 50 and the drawn deceleration; the spin total drawn has no effect |
| Text.TrimEnd | All-In/screens/Custom_Page.py:320 | the end of the text once all trailing whitespace is dropped |
| Text.Strip | All-In/screens/Custom_Page.py:320 | strip never lengthens a string |
| Text.StripSlice | All-In/screens/Custom_Page.py:320 | strip keeps one slice of the text, with only whitespace before and after it |
| Text.StripPadded | All-In/archive/AllInV2.py:173 | a trimmed text with whitespace added around it strips back to itself |
| Text.StripEmpty | All-In/screens/Custom_Page.py:135 | strip gives the empty string exactly when the string is all whitespace |
| Text.StripEnds | All-In/screens/Custom_Page.py:320 | a stripped string has no whitespace at either end |
| Text.StripChars | All-In/screens/Custom_Page.py:320 | strip removes characters and adds none |
| Text.StripTrimmed | All-In/screens/Custom_Page.py:320 | a string with no whitespace at either end is its own strip |
| Text.StripIdempotent | All-In/screens/Custom_Page.py:320 | stripping twice is stripping once |
| Text.Lower | All-In/screens/Custom_Page.py:612 | lower keeps the length |
| Text.LowerIdempotent | All-In/screens/Custom_Page.py:612 | lowering twice is lowering once |
| Text.StraightQuote | All-In/screens/Custom_Page.py:311-319 | each curly quote becomes straight; other characters, whitespace included, are kept |
| Text.ReplaceQuotes | All-In/screens/Custom_Page.py:311-319 | the four replacements map each character on its own through StraightQuote |
| Text.ReplaceQuotesChars | All-In/screens/Custom_Page.py:311-319 | no curly quote is left, and every other character was there before |
| Text.Find | All-In/screens/Custom_Page.py:648 | the first position at or after a start where the pattern occurs, or none |
| Text.SkipSpace | All-In/screens/Custom_Page.py:648 | a greedy `\s*`: the first non-whitespace position |
| Text.SkipDigits | All-In/screens/Custom_Page.py:648 | a greedy `\d*`: the first non-digit position |
| Text.ReplaceCrlf | All-In/screens/Custom_Page.py:643 | replacing CRLF never lengthens the text and leaves a text without `\r` unchanged |
| Text.ReplaceCrlfAt | All-In/screens/Custom_Page.py:643 | a CRLF becomes a single LF and the texts on either side are replaced independently |
| Text.InJoin | All-In/screens/Custom_Page.py:666 | a character other than the separator occurs in the joined pieces exactly when it occurs in one of them |
| Text.Split | All-In/screens/Custom_Page.py:666 | split gives at least one piece, none containing the separator, and joining the pieces gives back the text |
| Scanner.AnswerEnd | All-In/screens/Custom_Page.py:648 | the lazy answer group ends at the first `\nQuestion` or at the end of the text |
| Scanner.MatchAt | All-In/screens/Custom_Page.py:648-649 | a match found at a position starts there and lies within the text |
| Scanner.MatchAtWellFormed | All-In/screens/Custom_Page.py:648 | every match has the shape of the pattern, piece by piece |
| Scanner.MatchTable | All-In/screens/Custom_Page.py:648-649 | the table holds the match starting at each position |
| Scanner.Scan | All-In/screens/Custom_Page.py:649 | the scan reports matches from the table, in text order, without overlap |
| Scanner.FindAll | All-In/screens/Custom_Page.py:649 | findall reports matches of the pattern, in text order, without overlap |
| Scanner.FindAllWellFormed | All-In/screens/Custom_Page.py:648-649 | every reported match has the shape of the pattern |
| Scanner.ScanSkipsNothing | All-In/screens/Custom_Page.py:649 | a position that the scan steps over cannot start a match |
| Scanner.FindAllSkipsNothing | All-In/screens/Custom_Page.py:649 | findall misses no match that could start between the matches it reports |
| Scanner.Blocks | All-In/screens/Custom_Page.py:649 | one question/answer pair per match, in order |
| Scanner.MarkerWithAnswerMatches | All-In/screens/Custom_Page.py:648 | a `Question` marker followed, after a colon, by `\nAnswer:` always starts a match |
| Store.Strs | All-In/screens/Custom_Page.py:682-687 | a list of strings as JSON, element by element |
| Store.Wrap | All-In/screens/Custom_Page.py:686 | the nested `[[...]]` shape, whose inner list is the given items |
| Random.Swap | All-In/screens/Custom_Page.py:673 | an exchange of two elements keeps the length and the multiset of elements |
| Random.Rng.Below | All-In/screens/Custom_Page.py:673 | every draw lies below its bound |
| Random.Rng.Shuffle | All-In/screens/Custom_Page.py:673 | a shuffle is a permutation of its input |
| CustomPage.NormalizeTrimmed | All-In/screens/Custom_Page.py:311-320 | a normalised text has no whitespace at either end |
| CustomPage.NormalizeChars | All-In/screens/Custom_Page.py:311-320 | a normalised text has no curly quotes, and its other characters come from the input |
| CustomPage.NormalizeEmpty | All-In/screens/Custom_Page.py:311-320 | only an all-whitespace text normalises to the empty string |
| CustomPage.NormalizeIdempotent | All-In/screens/Custom_Page.py:311-320 | normalising twice is normalising once |
| CustomPage.KeyOfNormalized | All-In/screens/Custom_Page.py:658-684 | the stored, normalised question has the duplicate key it was imported under |
| CustomPage.Answers | All-In/screens/Custom_Page.py:666 | there is at most one answer per piece, and no answer is empty |
| CustomPage.AnswersNonEmpty | All-In/screens/Custom_Page.py:666-667 | there is an answer exactly when some piece is not all whitespace |
| CustomPage.AnswersCommaFree | All-In/screens/Custom_Page.py:666 | pieces without commas give answers without commas |
| CustomPage.AnswerListFacts | All-In/screens/Custom_Page.py:666-667 | a block's answers are non-empty and comma-free, and there is one exactly when the block has a character that is neither whitespace nor a comma |
| CustomPage.ImportedRecordShape | All-In/screens/Custom_Page.py:670-687 | an imported record has the normalised question and the first answer. Several answers make a multiple-choice record with the answers wrapped as `[[...]]`. A lone True or False makes a true/false record with `[["True", "False"]]`. Anything else makes a short-answer record whose choices are the unwrapped `[None]`, and only those are not wrapped |
| CustomPage.ShuffledRecord | All-In/screens/Custom_Page.py:672-673 | shuffling the multiple-choice answers changes the record only up to choice order |
| CustomPage.ExistingKeysAppend | All-In/screens/Custom_Page.py:611-690 | appending a record adds its key to the key set |
| CustomPage.Entries | All-In/screens/Custom_Page.py:656-687 | one entry per block, in order |
| CustomPage.EntriesKeyed | All-In/screens/Custom_Page.py:658-684 | every entry's record carries a question whose key is the entry's key |
| CustomPage.EntryOfFails | All-In/screens/Custom_Page.py:666-667 | a block gives no record exactly when it has no answer |
| CustomPage.StepConsistent | All-In/screens/Custom_Page.py:656-691 | one loop pass keeps the key set equal to the keys of the stored records |
| CustomPage.RunAppends | All-In/screens/Custom_Page.py:656-691 | the loop only appends: the old records are a prefix, and the count of additions is the growth |
| CustomPage.RunConsistent | All-In/screens/Custom_Page.py:656-691 | the key set stays the keys of the stored records throughout the loop |
| CustomPage.StepKeepsFresh | All-In/screens/Custom_Page.py:661-663 | a loop pass only appends a record whose key no earlier record has |
| CustomPage.RunKeepsFresh | All-In/screens/Custom_Page.py:656-691 | the loop keeps every record from a given index on fresh |
| CustomPage.RunAppendsFresh | All-In/screens/Custom_Page.py:656-691 | every record the loop appends has a key that no record before it has |
| CustomPage.RunAllKnown | All-In/screens/Custom_Page.py:661-663 | blocks whose keys are all known change nothing |
| CustomPage.RunSucceeds | All-In/screens/Custom_Page.py:666-667 | blocks that all have an answer never crash the loop |
| CustomPage.RunAddsNewDistinct | All-In/screens/Custom_Page.py:656-691 | the appended records have keys that are new to the old records and pairwise distinct |
| CustomPage.ImportAddsNewDistinct | All-In/screens/Custom_Page.py:595-697 | an import appends only questions not already stored, and never the same question twice |
| CustomPage.ImportCount | All-In/screens/Custom_Page.py:651-691 | the count of new questions is the growth of the store |
| CustomPage.ReimportAddsNothing | All-In/screens/Custom_Page.py:595-697 | importing the same files again adds nothing and changes nothing |
| CustomPage.ImportSucceeds | All-In/screens/Custom_Page.py:666-667 | blocks that all have an answer never crash the import |
| CustomPage.ImportCrashes | All-In/screens/Custom_Page.py:666-667 | a block with a new question and no answer crashes the import (the IndexError of `answers[0]`) |
| CustomPage.PagesTextAppend | All-In/screens/Custom_Page.py:631-634 | page texts are extracted page by page and concatenated in order |
| CustomPage.DocumentsTextAppend | All-In/screens/Custom_Page.py:622-640 | files are read independently and their texts concatenated in order |
| CustomPage.BlankPagesIgnored | All-In/screens/Custom_Page.py:633 | blank pages contribute nothing |
| CustomPage.ExtractPages | All-In/screens/Custom_Page.py:629-634 | the page loop computes PagesText |
| CustomPage.ReadDocuments | All-In/screens/Custom_Page.py:622-640 | the file loop computes DocumentsText, skipping non-PDF and unreadable files |
| CustomPage.FilesChosen | All-In/screens/Custom_Page.py:595-697 | no files means the file is left alone. Otherwise the outcome is Import of the stored records and the blocks of the cleaned PDF text: a crash where Import crashes, else the same records up to the order of the shuffled choices, with the same count |
| CustomPage.AddBlocks | All-In/screens/Custom_Page.py:651-691 | the block loop computes Import, up to the order of the shuffled multiple-choice answers |
| CustomPage.KeepOthers | All-In/screens/Custom_Page.py:500 | a record is kept exactly when it was stored and its stripped, lowered question differs from the given one |
| CustomPage.KeepOthersAppend | All-In/screens/Custom_Page.py:500 | removal keeps the order of the records it keeps |
| CustomPage.KeepOthersKeeps | All-In/screens/Custom_Page.py:500 | nothing is removed when no record matches |
| CustomPage.RemoveQuestionIdempotent | All-In/screens/Custom_Page.py:494-503 | removing a question twice is removing it once |
| CustomPage.RemoveFromStore | All-In/screens/Custom_Page.py:494-511 | an unreadable file is left alone; otherwise exactly the non-matching records are kept |
| CustomPage.FilledChoices | All-In/screens/Custom_Page.py:143 | the filled inputs, stripped, each non-empty; when every input is filled, all of them in order |
| CustomPage.TrueFalseRefusedAsWritten | All-In/screens/Custom_Page.py:130-133 | as written, a true/false form with an answer chosen is refused when the hidden short-answer field is empty |
| CustomPage.TrueFalseSavedWithoutAnswerAsWritten | All-In/screens/Custom_Page.py:130-150 | as written, a true/false form with no answer chosen is saved with an empty answer when the hidden field holds text |
| CustomPage.TrueFalseAccepted | All-In/screens/Custom_Page.py:130-150 | with the corrected check, a true/false form is accepted exactly when it has a question and True or False chosen, and that choice is saved as the answer |
| CustomPage.MultipleChoiceSaved | All-In/screens/Custom_Page.py:142-146 | an accepted multiple-choice form is saved with its first input as answer and all its stripped inputs as choices |
| CustomPage.ShuffledFormRecord | All-In/screens/Custom_Page.py:139-153 | the record built is FormRecord's, up to the order of the sampled choices |
| CustomPage.QuestionForm.constructor | All-In/screens/Custom_Page.py:81-83 | the screen opens on a short-answer question with empty fields |
| CustomPage.QuestionForm.SelectType | All-In/screens/Custom_Page.py:326-418 | choosing multiple choice brings four empty answer inputs; choosing true/false resets the dropdown; the other fields are kept |
| CustomPage.QuestionForm.Save | All-In/screens/Custom_Page.py:139-162 | the form's record is appended after the stored records, which are kept. The question and answer fields are cleared, the inputs of a multiple-choice form are emptied, and the success message is shown |
| CustomPage.QuestionForm.OnSave | All-In/screens/Custom_Page.py:129-162 | the validation as written: a form AcceptsAsWritten refuses (a true/false form being judged by the hidden short-answer field) only shows "Please fill in all fields."; any other form is saved as Save says, a true/false form with nothing chosen with an empty answer |
| CustomPage.QuestionForm.OnSaveCorrected | All-In/screens/Custom_Page.py:129-162 | the evidently intended on_save: a true/false form is saved only with True or False chosen, and that is its answer; otherwise as OnSave |
| Flashcards.EnabledButtonsMove | All-In/archive/AllInV2.py:140-151 | an enabled navigation button always leads to a card of the deck, and flip is enabled exactly on a card |
| Flashcards.FlipTwice | All-In/archive/AllInV2.py:153-162 | flipping twice from either state comes back to it |
| Flashcards.FlipShowsAnswer | All-In/archive/AllInV2.py:153-162 | a flip from the placeholder shows the answer and offers "Hide Answer"; a flip from the answer hides it and offers "Flip Card" |
| Flashcards.QuizIgnoresCase | All-In/archive/AllInV2.py:173-182 | the quiz verdict ignores letter case on both sides |
| Flashcards.SavedAnswerAccepted | All-In/archive/AllInV2.py:173-180 | typing a saved card's answer back, with any whitespace around it, is judged correct |
| Flashcards.QuizScreenFor | All-In/archive/AllInV2.py:192-211 | the finished screen shows exactly when a non-empty deck is exhausted; a question screen is numbered within the deck and shows that card's question |
| Flashcards.QuizInOrder | All-In/archive/AllInV2.py:187-211 | the quiz asks the cards in deck order, then finishes |
| Flashcards.Session.constructor | All-In/archive/AllInV2.py:17-25 | no cards, both indices at 0, and no quiz entry |
| Flashcards.Session.SaveFlashcard | All-In/archive/AllInV2.py:82-96 | with both stripped entries non-empty the card is appended, the entries are cleared and the new total is reported; otherwise only the error is reported |
| Flashcards.Session.UpdateFlashcardDisplay | All-In/archive/AllInV2.py:123-142 | the current card's question with the answer hidden, or the empty-deck texts; the buttons follow ButtonsFor |
| Flashcards.Session.NavigateFlashcard | All-In/archive/AllInV2.py:144-151 | a move that stays inside the deck is made and shown; any other changes nothing |
| Flashcards.Session.FlipFlashcard | All-In/archive/AllInV2.py:153-162 | the answer label and the flip button's text toggle as Flipped and FlipButtonAfter say |
| Flashcards.Session.CheckAnswerInput | All-In/archive/AllInV2.py:166-185 | nothing happens without an entry. An empty answer only prompts. Any other answer gets the case-insensitive verdict, enables next and disables check |
| Flashcards.Session.UpdateQuizDisplay | All-In/archive/AllInV2.py:192-276 | the screen is QuizScreenFor the deck and the index. A question screen remembers the card's answer, clears the entry and the feedback, disables next and enables check |
| Flashcards.Session.AdvanceQuiz | All-In/archive/AllInV2.py:187-190 | the quiz index moves on by one and the quiz screen follows |
| Flashcards.Session.ShowQuiz | All-In/archive/AllInV2.py:289-309 | the quiz restarts from the first card |
| Flashcards.Session.ShowStartPage | All-In/archive/AllInV2.py:412-496 | the review restarts from the first card, with the answer hidden and the flip button reading "Flip Card" |
| Playback.TypeNamesPlay | All-In/screens/Game_Page.py:250-302 | every type name the custom-question screen stores is dispatched by the game as the same kind |
| Playback.AnswerItselfCorrect | All-In/screens/Game_Page.py:359-364 | submitting the stored answer is judged correct |
| Playback.ImportedQuestionText | All-In/screens/Game_Page.py:335-350 | an imported question loads and shows its normalised question, with the first answer as the answer checked against |
| Playback.ImportedMultipleChoicePlays | All-In/screens/Game_Page.py:254-268 | an imported multiple-choice question offers the block's answers as its options |
| Playback.ImportedTrueFalsePlays | All-In/screens/Game_Page.py:270-276 | an imported true/false question offers True and False |
| Playback.ImportedShortAnswerPlays | All-In/screens/Game_Page.py:278-295 | an imported short-answer question is answered in the text entry |
| Playback.ImportedQuestionPlays | All-In/screens/Game_Page.py:311-372 | an imported question loads, plays as its kind and shows its normalised text. Its correct answer is among the options, or is typed into the entry, and is judged correct |
| Playback.SavedMultipleChoicePlays | All-In/screens/Game_Page.py:254-268 | a multiple-choice question that on_save as written accepts offers the filled inputs as options, the first of them being judged correct |
| Playback.SavedTrueFalsePlays | All-In/screens/Game_Page.py:270-276 | any saved true/false question offers True and False. A value chosen in the form is judged correct; a question saved with nothing chosen has an empty answer, and neither option is ever judged correct |
| Playback.SavedShortAnswerPlays | All-In/screens/Game_Page.py:278-295 | a saved short-answer question is answered correctly by typing the saved answer back |
| Playback.TextsMultiset | All-In/screens/Game_Page.py:256-264 | reordering the choices reorders the option texts the same way |
| Playback.ShuffledRecordsShowAlike | All-In/screens/Game_Page.py:311-353 | two records equal up to choice order (the shuffles of the import and of on_save) are shown alike, up to the order of the option buttons |

## Left out

- Kivy and customtkinter widgets, layouts, fonts, colours, popups, confetti and sizing.
  Widget texts and enabled states appear as fields where a contract speaks about them.
- File and JSON I/O and PDF text extraction are parameters:
  - the decoded store is `Option<seq<StoredRecord>>`, with `None` when the file cannot be read or decoded;
  - a PDF is its list of page texts.
- CustomPage.QuestionForm.OnSave: `None` stands only for a missing or malformed file, which
  `load_questions_data` turns into an empty list. Other read errors (permission, a directory, an
  undecodable byte) raise out of `on_save`, which then writes nothing, clears nothing and shows no
  message; that outcome is not modelled. The same holds for `OnSaveCorrected` and `Save`.
- The write-back is the returned records; the reload of the app's bank that follows a write
  is `AppState.App.LoadQuestions`, left to the caller.
- Clock and `after` callbacks are returned `scheduled` flags or the `roulettes` counter. The
  switch to the roulette page and the flash timing of `flash_result` (the middle area briefly
  disabled) are not modelled.
- Randomness is an abstract tape of draws. `random.shuffle` and `random.sample` are
  `Random.Rng.Shuffle`. The two `random.uniform` draws of `spin` are parameters.
- `CustomPage.Normalize`: the NFKD normalisation is the identity, because there is no Unicode
  decomposition table.
- `Text.Lower`: ASCII letters only.
- `Text.IsDigit`: `\d` is the ASCII digits only.
- GamePage: the multiplier is kept in integer hundredths. The float sums of 0.05 are therefore exact, not rounded.
- Roulette: angles and speeds are exact reals, not floats.
  - `Roulette.Mod360` is exact. A float `%` can round a tiny negative result up to 360.0, and that case is not modelled.
  - `totalSpins` is decremented every frame and never read, so it has no effect on the modelled behaviour.
  - The drawing of the wheel is not modelled.
- `Store.Json` has only null, strings and lists, the values a `choices` entry takes in records the
  program writes. Numbers, booleans and objects are not modelled, and neither is the TypeError that
  `normalize_text` or `strip` would raise on a stored question that is not a string.
- `GamePage.Repr` quotes strings with `'` and does not escape quotes inside them, as Python's `repr` would.
- `Flashcards`: the creation, review and quiz page layouts of `archive/AllInV2.py`, and the
  message boxes, are not modelled beyond the texts and states the contracts name.
- `GamePage.Screen.NextQuestion`: the fonts and text sizes of the labels, and the submit wiring of
  the option buttons (`_on_option_selected` and the entry's submit), are routed to `SubmitAnswer` by the caller.

## Findings

| source | as written | input that shows it | evidently intended | confidence | as-written member | corrected member |
|---|---|---|---|---|---|---|
| All-In/screens/Custom_Page.py:130-150 | `on_save` checks a true/false question against the hidden short-answer input, not the answer dropdown | a true/false form with question "Q", an empty answer input and "True" chosen is refused; with "x" in the hidden input and nothing chosen it is saved with an empty answer | a true/false question needs a question and True or False chosen in the dropdown | not executed | CustomPage.TrueFalseRefusedAsWritten | CustomPage.TrueFalseAccepted |
