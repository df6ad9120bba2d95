# Quiz sequencing of the language-learning app, in Dafny

This project models the client-side quiz logic of the app. Three parts make up that logic:

- **Exam runner** (`app/exam/exam-quiz.tsx`, module `ExamQuiz`, class `ExamRunner`). It walks a fixed list of challenges and keeps three things: an index, the selected option and an append-only list of answers. Each effective "continue" grades the selection against the first option flagged correct, appends one `{challengeId, selectedOptionId, correct}` entry, then either advances or, on the last challenge, produces the score and total for the exam-result action.
- **Lesson runner** (`app/lesson/exam-quiz.tsx`, module `LessonQuiz`, class `LessonRunner`). It grades the same way but in two steps. The first "continue" shows a verdict and appends a result. The second moves on without grading again. The selection is locked while a verdict is shown. Running off the end of the list shows the results screen.
- **Results screen** (`app/lesson/results-screen.tsx`, module `ResultsScreen`). This is a pure function of the results list: the correct and incorrect counters, plus one entry per result showing the learner's option and, for a wrong one, the correct option.

`Challenges` holds what the three share:

- the challenge and option records;
- JavaScript's `find` (`FindIndex`, `CorrectOption`);
- the falsy test on the selection (`HasSelection`: undefined and `0` both count as no selection);
- the grading step (`Evaluate`).

Each runner is a class with the component's state as fields. Its `Valid()` invariant links the ledger length to the index. Its methods state the whole new state in terms of the old one. Two driver methods, `ExamQuiz.TakeExam` and `LessonQuiz.PracticeLesson`, run a full attempt. They prove the end state:

- one ledger entry per challenge, in order;
- each entry graded against its own challenge;
- the score (or the lesson's progress count) equal to the number of correct entries.

Where the code's behaviour and its evident intent differ, the model follows the code:

- the two runners are separate machines, not one parameterised machine;
- the exam runner's `onSelect` has no guard;
- the exam runner does not stop accepting "continue" after it finalises (see Findings);
- lesson progress grows only on correct gradings, not with every answered question.

## Model

| member | source | states |
|---|---|---|
| `Challenges.FindIndex` | app/exam/exam-quiz.tsx:47 | the result is the position of the first element that satisfies the predicate; it is absent exactly when no element does |
| `Challenges.CorrectOption` | app/lesson/exam-quiz.tsx:84 | absent exactly when no option is flagged correct; otherwise a flagged option |
| `Challenges.CorrectOptionIsFirst` | app/lesson/exam-quiz.tsx:84 | the option found is an option of the list that no earlier flagged option precedes, so with several flags the first is used |
| `Challenges.HasSelection` | app/exam/exam-quiz.tsx:45 | definition, no contract: the falsy test `!selectedOption` is false exactly for undefined and 0; its effect is proved by `Challenges.Evaluate` (no grade without a truthy selection), `ExamQuiz.ExamRunner.Continue` (`old(Pending()).None? ==> unchanged(this)`) and the first ensures of `LessonQuiz.LessonRunner.Continue` |
| `Challenges.ChallengeAt` | app/exam/exam-quiz.tsx:36 | there is no current challenge exactly when the index is past the list, which includes every index of an empty list (nothing is rendered) |
| `Challenges.OptionsAt` | app/lesson/exam-quiz.tsx:61-62 | the options on screen are the current challenge's, and none past the end |
| `Challenges.Evaluate` | app/exam/exam-quiz.tsx:45-50 | a grade exists exactly when the selection is truthy (neither undefined nor 0) and a correct option is found; the grade is "correct" exactly when the selection is that option's id |
| `Challenges.EvaluateMeans` | app/exam/exam-quiz.tsx:45-50 | in terms of the options alone: a grade exists exactly when the selection is truthy and some option is flagged; it is "correct" exactly when the selection is the id of a flagged option with no flagged option before it |
| `ExamQuiz.Score` | app/exam/exam-quiz.tsx:77 | the score never exceeds the number of answers |
| `ExamQuiz.ScoreIsFull` | app/exam/exam-quiz.tsx:77 | the score equals the number of answers exactly when every answer is correct |
| `ExamQuiz.ScoreIsZero` | app/exam/exam-quiz.tsx:77 | the score is 0 exactly when no answer is correct |
| `ExamQuiz.ScoreAppend` | app/exam/exam-quiz.tsx:53-60 | appending one answer raises the score by one exactly when that answer is correct |
| `ExamQuiz.Grade` | app/exam/exam-quiz.tsx:47-59 | an answer is recorded exactly when the selection is truthy and a correct option exists; it carries the challenge id and the selection, and it is correct exactly when the selection is the first correct option's id |
| `ExamQuiz.RecordKeepsLedger` | app/exam/exam-quiz.tsx:53-75 | appending the current challenge's graded answer keeps the ledger invariant whether the index then advances or stays on the last challenge; at the first finalisation the ledger has one entry per challenge, entry i grading challenge i |
| `ExamQuiz.Settle` | app/exam/exam-quiz.tsx:79-93 | navigation to the results page, with the request's exam id, score and total, happens exactly when the action succeeds or returns a falsy error; otherwise the toast "Error al guardar resultados" is shown |
| `ExamQuiz.ExamRunner.constructor` | app/exam/exam-quiz.tsx:30-34 | the runner starts at index 0 with no selection and an empty ledger, and the invariant holds |
| `ExamQuiz.ExamRunner.Select` | app/exam/exam-quiz.tsx:40-42 | the selection is overwritten unconditionally, so repeated selects keep only the last id; the index and the ledger do not change |
| `ExamQuiz.ExamRunner.Continue` | app/exam/exam-quiz.tsx:44-95 | with a falsy selection or no correct option nothing changes; otherwise exactly the graded answer is appended and earlier entries are kept; before the last challenge the index goes up by 1 and the selection is cleared; on the last challenge both stay, and the request carries the score of the new ledger and a total equal to the number of challenges; at the first finalisation the ledger has one entry per challenge, in challenge order |
| `ExamQuiz.ExamRunner.ContinueOrResend` | app/exam/exam-quiz.tsx:44-94 | corrected finalisation: a falsy selection or an empty challenge list changes nothing and sends nothing, as the falsy-selection guard does; otherwise behaves as `Continue` until the ledger is full, then records nothing and sends the same request again; every request has exactly one answer per challenge, in order, and a score no larger than the total |
| `ExamQuiz.DoubleContinueExample` | app/exam/exam-quiz.tsx:63-94 | as written, a one-challenge exam answered correctly and confirmed twice saves a second request with two answers, score 2 and total 1 |
| `ExamQuiz.DoubleContinueCorrected` | app/exam/exam-quiz.tsx:63-94 | on the corrected runner the same clicks send the same request twice: one answer, score 1, total 1 |
| `ExamQuiz.Attempt` | app/exam/exam-quiz.tsx:40-75 | one exam turn (select a truthy id, then continue, on the corrected runner): exactly the graded pick is appended; before the last challenge the index advances and nothing is saved; on the last challenge the request carries the score of the ledger and the number of challenges |
| `ExamQuiz.TakeExam` | app/exam/exam-quiz.tsx:44-81 | a full exam run ends in one request for the exam: total and ledger length both equal the number of challenges, entry i grades pick i against challenge i, and the score counts the correct entries and is at most the total |
| `ResultsScreen.CorrectCount` | app/lesson/results-screen.tsx:26 | the correct count never exceeds the number of results |
| `ResultsScreen.CountsCoverResults` | app/lesson/results-screen.tsx:26-27 | the correct results and the wrong results together are all the results |
| `ResultsScreen.CorrectCountAppend` | app/lesson/results-screen.tsx:26 | appending a result raises the correct count by one exactly when the result is correct |
| `ResultsScreen.AllCorrect` | app/lesson/results-screen.tsx:26 | the correct count equals the number of results exactly when every result is correct |
| `ResultsScreen.IncorrectCount` | app/lesson/results-screen.tsx:27 | `results.length - correctCount` equals the number of results graded wrong, so it is non-negative |
| `ResultsScreen.UserOption` | app/lesson/results-screen.tsx:48-50 | the learner's option is the first option of the challenge with the recorded id; it is absent exactly when no option has that id |
| `ResultsScreen.YourAnswer` | app/lesson/results-screen.tsx:88 | the learner's option text is shown whenever that option exists and its text is non-empty; otherwise "Sin respuesta" is shown |
| `ResultsScreen.EntryFor` | app/lesson/results-screen.tsx:46-100 | the entry is numbered index+1 and carries the question and the verdict; the correct-answer line is present exactly for a wrong result, shows the first correct option's text, and is empty when no option is flagged |
| `ResultsScreen.Entries` | app/lesson/results-screen.tsx:45-64 | there is one entry per result, in list order: entry i is the entry for result i at position i, so it is numbered i+1 and shows the correct-answer line exactly when result i is wrong |
| `ResultsScreen.Render` | app/lesson/results-screen.tsx:24-45 | the two counters are the correct and wrong counts; they sum to the number of results; the entries are the per-result entries, in list order |
| `LessonQuiz.GradedEntry` | app/lesson/results-screen.tsx:47-100 | for a result graded by the runner, and when option ids are distinct: the learner's option is the correct option exactly when the verdict is correct, and a wrong result's correct-answer line is the first correct option's text |
| `LessonQuiz.LessonRunner.constructor` | app/lesson/exam-quiz.tsx:52-59 | the runner starts at index 0 with no selection, status "none", no results and progress 0, and the invariant holds |
| `LessonQuiz.LessonRunner.Finished` | app/lesson/exam-quiz.tsx:112-114 | the results screen is shown exactly when there is no current challenge |
| `LessonQuiz.LessonRunner.Next` | app/lesson/exam-quiz.tsx:64-66 | the index goes up by exactly 1 |
| `LessonQuiz.LessonRunner.Select` | app/lesson/exam-quiz.tsx:68-72 | the selection is replaced only while the status is "none"; nothing else changes |
| `LessonQuiz.LessonRunner.Continue` | app/lesson/exam-quiz.tsx:74-110 | with no selection nothing changes; with a verdict shown, the index goes up by 1, the status resets, the selection clears and no result is appended; with no correct option nothing changes; otherwise the index stays, the status becomes correct exactly when the selection is the first correct option's id, exactly one result for the current challenge is appended, and progress grows only on a correct grading; once finished, nothing changes; the invariant `|results| == index + (status != none ? 1 : 0)`, with result i graded on challenge i, is kept |
| `LessonQuiz.GradeKeepsProgress` | app/lesson/exam-quiz.tsx:85-109 | grading the current challenge keeps the progress invariant: one result more, the verdict on screen, and the progress count up by one exactly for a correct verdict |
| `LessonQuiz.AdvanceKeepsProgress` | app/lesson/exam-quiz.tsx:77-82 | moving past a challenge whose verdict is shown, with the status and selection cleared, keeps the progress invariant |
| `LessonQuiz.FinishedSummary` | app/lesson/exam-quiz.tsx:112-114 | when the attempt is finished the status is "none", there is one result per challenge in challenge order, the screen's counters sum to the number of challenges, and the correct counter equals the progress count |
| `LessonQuiz.GradedMeans` | app/lesson/exam-quiz.tsx:84-109 | a result the runner graded has a correct option on its challenge, and its verdict is correct exactly when its selection is that option's id |
| `LessonQuiz.AllGradedMeans` | app/lesson/exam-quiz.tsx:84-109 | the same for every result of a list holding the given picks: result i is correct exactly when pick i is the id of its challenge's correct option |
| `LessonQuiz.Practise` | app/lesson/exam-quiz.tsx:68-110 | one lesson turn (select, check, continue): the index goes up by one, the status is back to "none", and exactly one result is appended: the current challenge, the pick, and the verdict correct exactly when the pick is the id of the challenge's first correct option |
| `LessonQuiz.PracticeLesson` | app/lesson/exam-quiz.tsx:74-114 | a full lesson run (select, check, continue for each challenge) yields one result per challenge, in order, each holding its pick and graded correct exactly when that pick is the first correct option's id; the progress count equals the number of correct results |

## Findings

| source | as written | input that shows it | evidently intended | confidence | as-written member | corrected member |
|---|---|---|---|---|---|---|
| app/exam/exam-quiz.tsx:63-94 | on the last challenge the selection is neither cleared nor guarded, so "continue" stays enabled; each further click appends another answer for the same challenge and saves again | one challenge whose option 1 is correct; select 1, click "continue" twice (a double click, or a retry after the error toast) | a finished exam keeps one answer per challenge; a retry re-sends the same result, so the score never exceeds the total | medium, not executed | `ExamQuiz.DoubleContinueExample` | `ExamQuiz.ExamRunner.ContinueOrResend` |

The as-written `ExamQuiz.ExamRunner.Continue` is kept as the faithful model of `onContinue`. `ExamQuiz.TakeExam` runs on the corrected method. On a single pass through the list the two methods behave the same.

## Left out

- Persistence and identity: `saveExamResultAction` (an authenticated database insert) is not part of this model. Its outcome is a parameter of `ExamQuiz.Settle`. The request it would receive is what `Continue` returns.
- The async wrapper, `router.push` and `toast`: these are side effects. `ExamQuiz.Settle` states which one follows which outcome.
- Floating-point progress: the exam runner's `((activeIndex + 1) / challenges.length) * 100` is not modelled. The lesson runner's cumulative `prev + 100 / challenges.length` is kept as a count of its steps (`percentageSteps`).
- Audio feedback, `useTransition` and the `pending` flag that disables the lesson footer: these are concurrency and UI concerns. `startTransition` updates are treated as applied at once.
- Rendering details: titles, the ASSIST question bubble, styling and the results screen's "back to simulator" button.
- Challenge and option fields the runners never read (type, order, image and audio sources).
- Option ids are unbounded integers. JavaScript numbers are not modelled; a NaN id, which is also falsy, cannot arise from a database id.
- Interleaving: handlers are treated as running one at a time, each on the state the previous one left, which is how React processes discrete clicks. Overlapping transitions are not modelled.
- The Streamlit CMS, its SQL helpers and the presentational selector components are not part of this model.
