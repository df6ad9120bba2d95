/**
 * The exam runner: an index into a fixed list of challenges, the option
 * currently selected and an append-only list of answers. Every effective
 * "continue" grades the selection, appends one answer and either moves to the
 * next challenge or, on the last one, hands the score and the answers to the
 * exam-result action.
 */
module ExamQuiz {
  import opened Challenges

  /** One ledger entry: `{ challengeId, selectedOptionId, correct }`. */
  datatype Answer = Answer(challengeId: int, selectedOptionId: int, correct: bool)

  /** The arguments of `saveExamResultAction(examId, score, challenges.length, finalAnswers)`. */
  datatype SaveRequest = SaveRequest(examId: int, score: nat, total: nat, answers: seq<Answer>)

  /** What the action reports back: `{ success: true }` or `{ error }`, or it throws. */
  datatype SaveOutcome = Success | Error(message: string) | Threw

  /** What the runner does once the action has settled. */
  datatype AfterSave = ShowError(message: string) | GoToResults(examId: int, score: nat, total: nat)

  const SaveErrorMessage: string := "Error al guardar resultados"

  /** `finalAnswers.filter((a) => a.correct).length` */
  function Score(answers: seq<Answer>): (s: nat)
    ensures s <= |answers|
  {
    if answers == [] then 0
    else (if answers[0].correct then 1 else 0) + Score(answers[1..])
  }

  /** The score is the full length exactly when every answer is correct. */
  lemma {:induction false} ScoreIsFull(answers: seq<Answer>)
    ensures Score(answers) == |answers| <==> forall i :: 0 <= i < |answers| ==> answers[i].correct
  {
    if answers != [] {
      ScoreIsFull(answers[1..]);
      if Score(answers) == |answers| {
        forall i | 0 <= i < |answers| ensures answers[i].correct {
          if i > 0 { assert answers[i] == answers[1..][i - 1]; }
        }
      }
      if forall i :: 0 <= i < |answers| ==> answers[i].correct {
        forall i | 0 <= i < |answers[1..]| ensures answers[1..][i].correct {
          assert answers[1..][i] == answers[i + 1];
        }
      }
    }
  }

  /** The score is zero exactly when no answer is correct. */
  lemma {:induction false} ScoreIsZero(answers: seq<Answer>)
    ensures Score(answers) == 0 <==> forall i :: 0 <= i < |answers| ==> !answers[i].correct
  {
    if answers != [] {
      ScoreIsZero(answers[1..]);
      if Score(answers) == 0 {
        forall i | 0 <= i < |answers| ensures !answers[i].correct {
          if i > 0 { assert answers[i] == answers[1..][i - 1]; }
        }
      }
      if forall i :: 0 <= i < |answers| ==> !answers[i].correct {
        forall i | 0 <= i < |answers[1..]| ensures !answers[1..][i].correct {
          assert answers[1..][i] == answers[i + 1];
        }
      }
    }
  }

  /** Appending one answer adds one to the score exactly when it is correct. */
  lemma {:induction false} ScoreAppend(answers: seq<Answer>, a: Answer)
    ensures Score(answers + [a]) == Score(answers) + (if a.correct then 1 else 0)
  {
    if answers == [] {
      assert [a][1..] == [];
    } else {
      assert (answers + [a])[1..] == answers[1..] + [a];
      ScoreAppend(answers[1..], a);
    }
  }

  /**
   * The answer an effective "continue" records for challenge `c`, or nothing when
   * the selection is falsy or no option of `c` is flagged correct.
   */
  function Grade(c: Challenge, selected: Option<int>): (a: Option<Answer>)
    ensures a.Some? <==> HasSelection(selected) && CorrectOption(c.options).Some?
    ensures a.Some? ==> a.value.challengeId == c.id && a.value.selectedOptionId == selected.value
    ensures a.Some? ==> (a.value.correct <==> selected.value == CorrectOption(c.options).value.id)
  {
    match Evaluate(c.options, selected)
    case None => None
    case Some(isCorrect) => Some(Answer(c.id, selected.value, isCorrect))
  }

  /** `a` is what grading the selection it records against `c` yields. */
  predicate Records(a: Answer, c: Challenge)
  {
    Grade(c, Some(a.selectedOptionId)) == Some(a)
  }

  /**
   * After the action settles: an error (a non-empty `error`, which is truthy) or
   * an exception shows the toast and stays; anything else goes to the results
   * page with the score and the total.
   */
  function Settle(req: SaveRequest, outcome: SaveOutcome): (e: AfterSave)
    ensures e.GoToResults? <==> outcome.Success? || outcome == Error("")
    ensures e.GoToResults? ==> e.examId == req.examId && e.score == req.score && e.total == req.total
    ensures e.ShowError? ==> e.message == SaveErrorMessage
  {
    match outcome
    case Success => GoToResults(req.examId, req.score, req.total)
    case Error(message) => if message != "" then ShowError(SaveErrorMessage) else GoToResults(req.examId, req.score, req.total)
    case Threw => ShowError(SaveErrorMessage)
  }

  /** The ledger slot `i` belongs to: past the end, every extra entry is for the last challenge. */
  function Slot(i: nat, n: nat): nat
    requires n > 0
  {
    if i < n then i else n - 1
  }

  /**
   * The index stays on a challenge; the ledger has one entry per challenge
   * passed, plus any entries recorded on the last challenge, and every entry
   * grades the challenge of its slot.
   */
  ghost predicate Ledger(challenges: seq<Challenge>, activeIndex: nat, answers: seq<Answer>)
  {
    (|challenges| == 0 ==> activeIndex == 0 && answers == []) &&
    (|challenges| > 0 ==> activeIndex < |challenges|) &&
    activeIndex <= |answers| &&
    (activeIndex < |answers| ==> activeIndex == |challenges| - 1) &&
    forall i :: 0 <= i < |answers| ==> Records(answers[i], challenges[Slot(i, |challenges|)])
  }

  /**
   * Recording the current challenge's answer keeps the ledger invariant, whether
   * the index then advances or, on the last challenge, stays; at the first
   * finalisation the ledger grades every challenge in order.
   */
  lemma RecordKeepsLedger(challenges: seq<Challenge>, k: nat, answers: seq<Answer>, a: Answer)
    requires Ledger(challenges, k, answers) && k < |challenges| && Records(a, challenges[k])
    ensures k + 1 < |challenges| ==> Ledger(challenges, k + 1, answers + [a])
    ensures k + 1 >= |challenges| ==> Ledger(challenges, k, answers + [a])
    ensures k + 1 >= |challenges| && |answers| == k ==>
              |answers + [a]| == |challenges| &&
              forall i :: 0 <= i < |challenges| ==> Records((answers + [a])[i], challenges[i])
  {
    var n := |challenges|;
    forall i | 0 <= i < |answers + [a]|
      ensures Records((answers + [a])[i], challenges[Slot(i, n)])
    {
      if i < |answers| {
        assert (answers + [a])[i] == answers[i];
      }
    }
  }

  class ExamRunner {
    const examId: int
    const challenges: seq<Challenge>
    var activeIndex: nat
    var selectedOption: Option<int>
    var answers: seq<Answer>

    /** The ledger invariant on the runner's fields. */
    ghost predicate Valid()
      reads this
    {
      Ledger(challenges, activeIndex, answers)
    }

    /** The answer the next "continue" would record, if it is effective. */
    ghost function Pending(): Option<Answer>
      reads this
    {
      match ChallengeAt(challenges, activeIndex)
      case None => None
      case Some(c) => Grade(c, selectedOption)
    }

    /** The request sent when the current ledger is final. */
    ghost function Final(): SaveRequest
      reads this
    {
      SaveRequest(examId, Score(answers), |challenges|, answers)
    }

    constructor (examId: int, challenges: seq<Challenge>)
      ensures Valid()
      ensures this.examId == examId && this.challenges == challenges
      ensures activeIndex == 0 && selectedOption == None && answers == []
    {
      this.examId := examId;
      this.challenges := challenges;
      activeIndex := 0;
      selectedOption := None;
      answers := [];
    }

    /** `onSelect`: overwrite the selection, whatever the state. */
    method Select(id: int)
      requires Valid()
      modifies this
      ensures Valid()
      ensures selectedOption == Some(id)
      ensures activeIndex == old(activeIndex) && answers == old(answers)
    {
      selectedOption := Some(id);
    }

    /**
     * `onContinue`, as written: a falsy selection or a challenge without a
     * correct option changes nothing; otherwise one answer is appended and the
     * runner advances or, on the last challenge, keeps its index and selection
     * and returns the request for the exam-result action.
     */
    method Continue() returns (save: Option<SaveRequest>)
      requires Valid()
      modifies this
      ensures Valid()
      ensures old(Pending()).None? ==> unchanged(this) && save == None
      ensures old(Pending()).Some? ==> answers == old(answers) + [old(Pending()).value]
      ensures old(Pending()).Some? && old(activeIndex) + 1 < |challenges| ==>
                activeIndex == old(activeIndex) + 1 && selectedOption == None && save == None
      ensures old(Pending()).Some? && old(activeIndex) + 1 >= |challenges| ==>
                activeIndex == old(activeIndex) && selectedOption == old(selectedOption) && save == Some(Final())
      ensures save.Some? ==> save.value.score <= |save.value.answers| && save.value.total == |challenges|
      ensures save.Some? && old(|answers|) == old(activeIndex) ==>
                |save.value.answers| == |challenges| &&
                forall i :: 0 <= i < |challenges| ==> Records(save.value.answers[i], challenges[i])
    {
      if !HasSelection(selectedOption) {
        return None;
      }
      var correctOption := CorrectOption(OptionsAt(challenges, activeIndex));
      if correctOption.None? {
        return None;
      }
      var isCorrect := correctOption.value.id == selectedOption.value;
      var entry := Answer(challenges[activeIndex].id, selectedOption.value, isCorrect);
      var finalAnswers := answers + [entry];
      RecordKeepsLedger(challenges, activeIndex, answers, entry);
      answers := finalAnswers;
      if activeIndex < |challenges| - 1 {
        activeIndex := activeIndex + 1;
        selectedOption := None;
        save := None;
      } else {
        save := Some(SaveRequest(examId, Score(finalAnswers), |challenges|, finalAnswers));
      }
    }

    /**
     * `onContinue` with the repeat on the last challenge closed: a falsy selection
     * still changes nothing, and once the ledger holds one answer per challenge a
     * further "continue" records nothing and sends the same request again, so a
     * failed save can be retried as it was.
     */
    method ContinueOrResend() returns (save: Option<SaveRequest>)
      requires Valid() && |answers| <= |challenges|
      modifies this
      ensures Valid() && |answers| <= |challenges|
      ensures !HasSelection(old(selectedOption)) ==> unchanged(this) && save == None
      ensures |challenges| == 0 ==> unchanged(this) && save == None
      ensures HasSelection(old(selectedOption)) && old(|answers|) == |challenges| > 0 ==>
                unchanged(this) && save == Some(old(Final()))
      ensures old(|answers|) < |challenges| && old(Pending()).None? ==> unchanged(this) && save == None
      ensures old(|answers|) < |challenges| && old(Pending()).Some? ==> answers == old(answers) + [old(Pending()).value]
      ensures old(|answers|) < |challenges| && old(Pending()).Some? && old(activeIndex) + 1 < |challenges| ==>
                activeIndex == old(activeIndex) + 1 && selectedOption == None && save == None
      ensures old(|answers|) < |challenges| && old(Pending()).Some? && old(activeIndex) + 1 >= |challenges| ==>
                activeIndex == old(activeIndex) && selectedOption == old(selectedOption) && save == Some(Final())
      ensures save.Some? ==> save.value.score <= save.value.total == |challenges| == |save.value.answers|
      ensures save.Some? ==> forall i :: 0 <= i < |challenges| ==> Records(save.value.answers[i], challenges[i])
    {
      if !HasSelection(selectedOption) {
        return None;
      }
      if 0 < |challenges| == |answers| {
        return Some(SaveRequest(examId, Score(answers), |challenges|, answers));
      }
      save := Continue();
    }
  }

  /** A one-challenge exam whose only option, with id 1, is the correct one. */
  function OneChallengeExam(): (c: Challenge)
    ensures Grade(c, Some(1)) == Some(Answer(10, 1, true))
  {
    var c := Challenge(10, "q", [ChallengeOption(1, "a", true)]);
    assert CorrectOption(c.options) == Some(c.options[0]);
    c
  }

  /** The first click of the example below: the exam finalises with a score of 1 out of 1. */
  method FinishOneChallengeExam() returns (runner: ExamRunner, first: Option<SaveRequest>)
    ensures fresh(runner) && runner.Valid() && runner.Pending() == Some(Answer(10, 1, true))
    ensures runner.answers == [Answer(10, 1, true)] && runner.examId == 7 && |runner.challenges| == 1
    ensures first == Some(SaveRequest(7, 1, 1, [Answer(10, 1, true)]))
  {
    var a := Answer(10, 1, true);
    assert Score([a]) == 1 by {
      assert [a][1..] == [];
    }
    runner := new ExamRunner(7, [OneChallengeExam()]);
    runner.Select(1);
    first := runner.Continue();
  }

  /**
   * The repeat on the last challenge, as written: a one-challenge exam whose only
   * correct option is picked, confirmed twice, saves a second time with two
   * answers and a score of 2 out of a total of 1.
   */
  method DoubleContinueExample() returns (first: Option<SaveRequest>, second: Option<SaveRequest>)
    ensures first == Some(SaveRequest(7, 1, 1, [Answer(10, 1, true)]))
    ensures second == Some(SaveRequest(7, 2, 1, [Answer(10, 1, true), Answer(10, 1, true)]))
    ensures second.value.score > second.value.total
  {
    var a := Answer(10, 1, true);
    assert Score([a, a]) == 2 by {
      assert [a, a][1..] == [a];
      assert [a][1..] == [];
    }
    var runner;
    runner, first := FinishOneChallengeExam();
    second := runner.Continue();
    assert runner.answers == [a, a];
  }

  /** The same clicks on the corrected runner: the second save repeats the first. */
  method DoubleContinueCorrected() returns (first: Option<SaveRequest>, second: Option<SaveRequest>)
    ensures first == Some(SaveRequest(7, 1, 1, [Answer(10, 1, true)]))
    ensures second == first
  {
    var a := Answer(10, 1, true);
    assert Score([a]) == 1 by {
      assert [a][1..] == [];
    }
    var runner := new ExamRunner(7, [OneChallengeExam()]);
    runner.Select(1);
    assert runner.Pending() == Some(a);
    first := runner.ContinueOrResend();
    assert runner.answers == [a];
    second := runner.ContinueOrResend();
  }

  /** One turn of an exam on the corrected runner: pick an option of the current challenge and confirm it. */
  method Attempt(runner: ExamRunner, pick: int) returns (save: Option<SaveRequest>)
    requires runner.Valid() && |runner.answers| == runner.activeIndex < |runner.challenges|
    requires pick != 0 && CorrectOption(runner.challenges[runner.activeIndex].options).Some?
    modifies runner
    ensures runner.Valid()
    ensures runner.answers == old(runner.answers) + [Grade(runner.challenges[old(runner.activeIndex)], Some(pick)).value]
    ensures old(runner.activeIndex) + 1 < |runner.challenges| ==>
              runner.activeIndex == old(runner.activeIndex) + 1 && save == None
    ensures old(runner.activeIndex) + 1 >= |runner.challenges| ==>
              save == Some(SaveRequest(runner.examId, Score(runner.answers), |runner.challenges|, runner.answers))
  {
    runner.Select(pick);
    assert runner.Pending() == Grade(runner.challenges[runner.activeIndex], Some(pick));
    save := runner.ContinueOrResend();
  }

  /**
   * A whole exam on the corrected runner: picking `picks[i]` on challenge `i`
   * and confirming each one ends in exactly one save whose ledger grades every
   * challenge in order and whose score counts the correct answers.
   */
  method TakeExam(examId: int, challenges: seq<Challenge>, picks: seq<int>) returns (save: Option<SaveRequest>)
    requires |challenges| > 0 && |picks| == |challenges|
    requires forall i :: 0 <= i < |picks| ==> picks[i] != 0 && CorrectOption(challenges[i].options).Some?
    ensures save.Some? && save.value.examId == examId
    ensures save.value.total == |challenges| == |save.value.answers|
    ensures forall i :: 0 <= i < |challenges| ==> save.value.answers[i] == Grade(challenges[i], Some(picks[i])).value
    ensures save.value.score == Score(save.value.answers) <= save.value.total
  {
    var runner := new ExamRunner(examId, challenges);
    var i := 0;
    save := None;
    while i < |challenges|
      invariant 0 <= i <= |challenges|
      invariant runner.Valid() && runner.challenges == challenges && runner.examId == examId
      invariant |runner.answers| == i
      invariant i < |challenges| ==> runner.activeIndex == i && save == None
      invariant forall k :: 0 <= k < i ==> runner.answers[k] == Grade(challenges[k], Some(picks[k])).value
      invariant i == |challenges| ==> save == Some(SaveRequest(examId, Score(runner.answers), |challenges|, runner.answers))
    {
      ghost var before := runner.answers;
      save := Attempt(runner, picks[i]);
      assert forall k :: 0 <= k < i ==> runner.answers[k] == before[k];
      i := i + 1;
    }
  }
}
