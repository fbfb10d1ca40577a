# Reasoning quiz: question normaliser and quiz session

This project models the core of a small quiz web application in Dafny. A
participant enters a name, a role and a reasoning-difficulty tier ("k-hops").
They then answer up to ten multiple-choice logic questions of that tier. At the
end they see their score next to the score of a language model on the same
questions.

There are two parts:

- **The question normaliser** (`lib/data.ts`). `getQuestions(difficulty)` keeps
  the raw question records of one tier. It turns each into a canonical
  `Question` by scraping a free-text blob:
  - the correct-answer letter comes from `<Answer>: X` or `<Answer>X</Answer>`, with "C" as the fallback;
  - the question text comes from `<Question>\n[…]\n</Question>`, with a placeholder as the fallback;
  - the options are the non-blank lines of `<Options>…</Options>`.

  Two more fields come from dynamically named keys: the model's correctness verdict (first key starting with `correctness_`) and its response (first key starting with `response_`). `extractOptions` is part of this module.
- **The quiz session** (`components/quiz/QuizApp.tsx`). A three-state machine:
  INTAKE → QUIZ → RESULTS. Its handlers `startQuiz`, `handleAnswer`,
  `nextQuestion` and `finishQuiz` update the session's state cells. The
  user's and the model's scores are folds over the active questions. The
  results view declares the user the winner when their score is at least the
  model's.

Files:

- `seqs.dfy` (module `Seqs`): `Option`, and generic `Filter`, `Map`, `Count` (a left-to-right reduce) and leftmost-index search. These are the shapes of `filter`, `map`, `reduce` and `find`.
- `text.dfy` (module `Text`): the string operations the normaliser uses, written as explicit searches: case folding, substring search, `includes`, `trim`, `split`/`join`, and the lazy `open(.*?)close` match with the `s` flag.
- `data.dfy` (module `Data`): `lib/data.ts`. A raw record is its `id`, its `k_hops` and its string entries, kept as an ordered sequence of (key, value) pairs in `Object.keys` order, so "the first key with a prefix" is well defined.
- `data_cases.dfy` (module `DataCases`): facts proved about the normaliser on concrete blobs and records.
- `quiz.dfy` (module `QuizApp`): `components/quiz/QuizApp.tsx`.
  - The state cells are the fields of class `Session`, and the handlers are its methods.
  - `Valid()` is the session invariant: from QUIZ on, between 1 and 10 questions of the chosen tier are active, all drawn from the pool, the cursor is on one of them, and only their ids carry answers.
  - The random shuffle is a permutation supplied by the caller.

Behaviour of the code that a reader might not expect from its names or comments. The model follows the code:

- Options are not capped at four, and each option line is kept untrimmed. Only the block as a whole is trimmed (`lib/data.ts:56`, `DataCases.OptionsNotCappedAtFour`).
- `startQuiz` itself only rejects an *empty* name or position (`components/quiz/QuizApp.tsx:30`). Trimming happens in `isReady` (`components/quiz/QuizApp.tsx:78`), which only enables the start button (`Session.IsReady`, `Session.StartQuiz`).
- The colon answer form is searched over the whole blob before the tag form (`lib/data.ts:25`). A colon marker therefore wins even over an earlier tag marker (`DataCases.ColonBeatsEarlierTag`).
- For several `correctness_`/`response_` keys, the first one in key order is taken (`lib/data.ts:33`, `lib/data.ts:37`).
- Empty brackets, `<Question>\n[]\n</Question>`, are a match: the question text is then empty, not the placeholder, because `lib/data.ts:30` tests the match and not the captured text (`DataCases.EmptyQuestionText`).

## Model

| member | source | states |
|---|---|---|
| Seqs.Filter | lib/data.ts:20 | `filter` returns at most as many elements as its input; which ones, and in what order, is stated by `FilterMembers`, `FilterSubMultiset` and `FilterAppend` |
| Seqs.Map | lib/data.ts:22 | `map` returns one element per input element, the function applied to the element at the same position |
| Seqs.Count | components/quiz/QuizApp.tsx:58-64 | the `reduce` that adds 1 per matching element is at most the length of the list |
| Seqs.CountIsHits | components/quiz/QuizApp.tsx:58-64 | the `reduce` that adds 1 per matching element equals the number of positions where the predicate holds |
| Seqs.CountFull | components/quiz/QuizApp.tsx:58-64 | the count reaches the length exactly when every element matches |
| Seqs.FilterMembers | lib/data.ts:20 | `filter` keeps exactly the elements that satisfy the predicate |
| Seqs.FilterSubMultiset | components/quiz/QuizApp.tsx:33 | `filter` takes each element at most as often as the input holds it |
| Seqs.FilterAppend | lib/data.ts:20 | `filter` keeps source order: filtering a concatenation is the concatenation of the filtered parts |
| Text.Trim | lib/data.ts:56 | `trim` result is empty exactly when the string is all whitespace; otherwise it starts and ends with non-whitespace |
| Text.Split | lib/data.ts:56 | `split('\n')` yields at least one piece, no piece contains the separator, and joining the pieces gives back the string |
| Text.SplitJoin | lib/data.ts:56 | splitting undoes joining for separator-free lines |
| Seqs.FirstIndex | lib/data.ts:33 | `find` gives the index of an element satisfying the predicate with none before it, or nothing when no element satisfies it |
| Text.Lower | lib/data.ts:34 | `toLowerCase` keeps the length and lower-cases every character at its own position |
| Text.Contains | lib/data.ts:34 | `includes(p)` holds exactly when `p` occurs in the string at some position |
| Text.LowerContains | lib/data.ts:34 | `toLowerCase().includes(p)` with a lower-case `p` is a case-insensitive search for `p` |
| Text.Delimited | lib/data.ts:29 | `/open(.*?)close/s` matches at the leftmost opening and then at the nearest closing after it; no match exactly when no opening is followed by a closing |
| Data.FirstKeyWithPrefix | lib/data.ts:33-38 | `Object.keys(item).find(startsWith(prefix))` finds index i exactly when i is the first entry whose key has the prefix; it finds nothing exactly when no key has it |
| Data.Blob | lib/data.ts:23 | the blob is the value of the `question_and_explanation` entry, or "" when there is none |
| Data.ColonAnswerAt | lib/data.ts:25 | `/<Answer>:\s*([A-D])/i` tried at one position captures a letter only where the marker starts there, the letter is A-D in either case, and nothing past the end of the blob |
| Data.TagAnswerAt | lib/data.ts:25 | `/<Answer>([A-D])<\/Answer>/i` tried at one position captures the letter right after the opening tag, only when it is A-D and the closing tag follows it |
| Data.AnswerMatch | lib/data.ts:25 | the `match(colon) \|\| match(tag)` result is a letter A-D captured by one of the two patterns at some position; it is absent only when neither pattern matches anywhere |
| Data.ColonAnswerAtIsPattern | lib/data.ts:25 | the greedy whitespace skip captures letter c at i exactly when `<Answer>:\s*([A-D])` (ignoring case) can match at i with c as the letter |
| Data.CorrectAnswer | lib/data.ts:25-26 | the correct answer is always one of "A", "B", "C", "D" |
| Data.AnswerFromFirstColon | lib/data.ts:25-26 | the first colon-form marker decides the answer, upper-cased, wherever tag-form markers occur |
| Data.AnswerFromFirstTag | lib/data.ts:25-26 | without any colon-form marker, the first tag-form marker decides the answer, upper-cased |
| Data.AnswerDefault | lib/data.ts:26 | with neither marker form anywhere, the answer is "C" |
| Data.QuestionText | lib/data.ts:29-30 | with no opening delimiter followed by a closing one, the question text is exactly "Question text not found." |
| Data.QuestionTextIsFirstMatch | lib/data.ts:29-30 | the question text is the content between the first opening delimiter and the nearest closing delimiter after it |
| Data.ExtractOptions | lib/data.ts:53-57 | no options block gives no options; every option is newline-free and has a non-whitespace character |
| Data.OptionsAreNonBlankLines | lib/data.ts:53-57 | the options are exactly the non-blank lines of the first block's trimmed content, in order and untrimmed |
| Data.ModelCorrect | lib/data.ts:33-34 | without a `correctness_` key the model is not correct; with one, it is correct exactly when the first such key's lower-cased value contains "yes" |
| Data.ModelCorrectIff | lib/data.ts:33-34 | the model is correct exactly when a `correctness_` key exists and the value of the first such key contains "yes" in any case; otherwise it is not |
| Data.RawResponse | lib/data.ts:37-38 | the response is the value of the first `response_` key, or "" when there is none |
| Data.Normalize | lib/data.ts:40-49 | id and k_hops are copied, the answer is a letter A-D, explanation and raw response are the same string, and options are newline-free |
| Data.GetQuestions | lib/data.ts:20-22 | every returned question is of the requested tier |
| Data.GetQuestionsInOrder | lib/data.ts:20-50 | each record is normalised on its own and in place: a record contributes its question exactly when its tier matches, between the outputs for the records before and after it |
| Data.QuizPool | app/quiz/page.tsx:8-11 | every question of the quiz page's pool (tiers 1, 2, 3 concatenated) has k_hops between 1 and 3 |
| Data.PoolByTier | app/quiz/page.tsx:8-11 | filtering the quiz page's pool (tiers 1, 2, 3 concatenated) by a tier gives that tier's questions, and nothing for any other tier |
| DataCases.ColonAnswer | lib/data.ts:25-26 | `<answer>: b` yields "B" (case-insensitive marker, whitespace skipped, letter upper-cased) |
| DataCases.ColonBeatsEarlierTag | lib/data.ts:25 | a colon marker after a tag marker still decides the answer |
| DataCases.NoMarker | lib/data.ts:26 | a blob without markers yields "C" |
| DataCases.EmptyQuestionText | lib/data.ts:29-30 | `<Question>\n[]\n</Question>` yields an empty question text, not the placeholder |
| DataCases.YesBecause | lib/data.ts:34 | a `correctness_` value "Yes, because..." makes the model correct |
| DataCases.OptionsNotCappedAtFour | lib/data.ts:53-57 | a five-line block yields five options, with a padded line kept untrimmed |
| QuizApp.OptionLetter | components/quiz/QuizApp.tsx:184 | the first four option buttons carry an answer letter, and later buttons carry none |
| QuizApp.OptionLettersDistinct | components/quiz/QuizApp.tsx:184 | the four letters are distinct, and every answer letter has a button |
| QuizApp.UserScore | components/quiz/QuizApp.tsx:58-60 | the user's score is at most the number of active questions |
| QuizApp.ModelScore | components/quiz/QuizApp.tsx:62-64 | the model's score is at most the number of active questions |
| QuizApp.UserScoreCountsCorrect | components/quiz/QuizApp.tsx:58-60 | the user's score is the number of positions whose recorded answer equals the correct answer; unanswered ones count as wrong |
| QuizApp.ModelScoreCountsCorrect | components/quiz/QuizApp.tsx:62-64 | the model's score is the number of positions it got right |
| QuizApp.UserScoreFull | components/quiz/QuizApp.tsx:58-60 | a full score means every question was answered correctly, and conversely |
| QuizApp.UnansweredScoresZero | components/quiz/QuizApp.tsx:58-60 | with no answers the user scores 0 |
| QuizApp.ResultsVerdict | components/quiz/QuizApp.tsx:241-243 | both scores are bounded by the question count, and the user wins exactly when their score is at least the model's (ties go to the user) |
| QuizApp.PerfectRunWins | components/quiz/QuizApp.tsx:241-243 | answering everything correctly always wins |
| QuizApp.AnyMissLosesToPerfectModel | components/quiz/QuizApp.tsx:241-243 | against a model with every question right, one miss loses |
| QuizApp.DrawFromTier | components/quiz/QuizApp.tsx:33-34 | a prefix of a permutation of the tier's filtered questions holds only that tier and is a sub-multiset of the pool |
| QuizApp.Session.constructor | components/quiz/QuizApp.tsx:17-27 | the initial state: INTAKE, empty name and position, tier 1, no questions, cursor 0, no answers |
| QuizApp.Session.SetName | components/quiz/QuizApp.tsx:97 | the name input sets the name and keeps the invariant |
| QuizApp.Session.SetPosition | components/quiz/QuizApp.tsx:110 | the role input sets the position and keeps the invariant |
| QuizApp.Session.SetDifficulty | components/quiz/QuizApp.tsx:120-123 | a tier button sets one of the offered tiers 1-5 |
| QuizApp.Session.IsReady | components/quiz/QuizApp.tsx:78 | the start button is enabled exactly when both fields hold a non-whitespace character, which implies the handler's own raw guard passes |
| QuizApp.Session.Filtered | components/quiz/QuizApp.tsx:33 | a question is among the tier's questions exactly when it is a pool question of the chosen tier, and none is taken more often than the pool holds it |
| QuizApp.Session.StartQuiz | components/quiz/QuizApp.tsx:29-43 | an empty name or position changes nothing. Otherwise an empty tier leaves INTAKE and the active list unchanged. Otherwise the view becomes QUIZ with the first min(10, tier size) shuffled questions, all of the tier and drawn from the pool |
| QuizApp.Session.HandleAnswer | components/quiz/QuizApp.tsx:45-47 | the current question's answer is set, overwriting any earlier one; all other entries are unchanged |
| QuizApp.Session.ChooseOption | components/quiz/QuizApp.tsx:183-190 | an option button records its letter; the advance button becomes enabled exactly when the option is one of the first four |
| QuizApp.Session.NextQuestion | components/quiz/QuizApp.tsx:49-55 | before the last question the cursor advances by exactly one. On the last question the view becomes RESULTS with the cursor unchanged, and the scores shown are submitted. The cursor never decreases |
| QuizApp.Session.PressNext | components/quiz/QuizApp.tsx:219-221 | without a selection for the current question the advance button changes nothing; with one it acts as `nextQuestion`, and on the last question it submits name, position, tier and the scores the results view shows |
| QuizApp.Session.HasSelection | components/quiz/QuizApp.tsx:154 | `selected`, which enables the advance button through `disabled={!selected}`: a recorded answer letter for the current question enables it, and no recorded answer (or the "" standing for `undefined`) disables it |
| QuizApp.Session.FinishQuiz | components/quiz/QuizApp.tsx:57-74 | the view becomes RESULTS. The submission carries name, position, tier and the two score folds. The scores are at most the number of questions (at most 10) and equal those the results view shows |
| QuizApp.Session.Shown | components/quiz/QuizApp.tsx:239-243 | the results view shows both scores bounded by the question count (at most 10), and the user wins exactly when their score is at least the model's |
| QuizApp.UpperTiersEmpty | app/quiz/page.tsx:8-11 | a pool of tiers 1 to 3 only, as `QuizPool` is, has no question of tier 4 or 5 |
| QuizApp.UpperTiersNeverStart | components/quiz/QuizApp.tsx:29-39 | with such a pool and a non-empty name and position, starting at tier 4 or 5 always ends in the insufficient-questions rejection (with an empty one, the earlier guard returns instead) |

## Left out

- Reading `questions.json` and `JSON.parse` (`lib/data.ts:16-18`): the model starts from parsed records. A record's entries are strings; values of other types, and `toLowerCase` on a non-string correctness value, are not modelled.
- `Object.keys` order: the model takes the entries in a fixed order given with the record, and "first" refers to that order.
- Full regular-expression and Unicode semantics: `\s` and `trim` are ASCII whitespace (space, tab, line feed, vertical tab, form feed, carriage return), and case folding is ASCII letters only.
- The `Math.random` comparator sort (`components/quiz/QuizApp.tsx:34`): the shuffled list is a caller-supplied permutation of the filtered pool.
- `submitQuizResult` (`app/actions.ts`): the database insert, `revalidatePath` and the floating-point `percentDiff`. `FinishQuiz` returns the record it would send instead.
- The progress-bar percentage (floating point), `alert`, `window.location.reload`, React re-rendering and batching, and all markup. `app/quiz/page.tsx` is modelled only as the tiers 1-3 concatenation (`QuizPool`); its error handling is not part of this model.
- `components/quiz/ResultCard.tsx`, `components/layout/Navbar.tsx`, `app/page.tsx`, `app/layout.tsx` and `app/quiz/loading.tsx` are not part of this model (display only).
- QuizApp.Session.StartQuiz, QuizApp.Session.HandleAnswer, QuizApp.Session.NextQuestion, QuizApp.Session.PressNext, QuizApp.Session.FinishQuiz and QuizApp.Session.ChooseOption: each requires the view it is rendered in (INTAKE or QUIZ), since the handlers are reachable only from their own screen.
- QuizApp.Session.NextQuestion: requires a non-empty answer for the current question, because the advance button is disabled otherwise. `PressNext` models the button itself.
- QuizApp.OptionLetter: the `undefined` that the letter lookup gives past the fourth option is written as "". Like `undefined`, it is falsy and equals no answer.
