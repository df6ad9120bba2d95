/**
 * The lesson (practice) runner: the same grading as the exam runner, with a
 * two-step cadence. A first "continue" grades the selection, shows the verdict
 * and appends a result; a second one moves on without grading again. Running
 * off the end of the list shows the results screen.
 */
module LessonQuiz {
  import opened Challenges
  import opened ResultsScreen

  /** `r` holds a selection and the verdict grading it against its challenge gives. */
  predicate Graded(r: Result)
  {
    r.userOptionId.Some? && Evaluate(r.challenge.options, r.userOptionId) == Some(r.status == Correct)
  }

  /** No two options of a challenge share an id. */
  predicate UniqueIds(options: seq<ChallengeOption>)
  {
    forall i, j :: 0 <= i < j < |options| ==> options[i].id != options[j].id
  }

  /**
   * What the results screen shows for a graded result: with distinct option ids
   * the learner's option is the correct one exactly when the verdict is correct,
   * and a wrong result's correct-answer line names the first correct option.
   */
  lemma GradedEntry(index: nat, r: Result)
    requires Graded(r) && UniqueIds(r.challenge.options)
    ensures r.status == Correct <==> UserOption(r) == CorrectOption(r.challenge.options)
    ensures r.status == Wrong ==> EntryFor(index, r).correctAnswer == Some(CorrectOption(r.challenge.options).value.text)
  {
    var options := r.challenge.options;
    var c := CorrectOption(options).value;
    CorrectOptionIsFirst(options);
    if r.status == Correct {
      assert r.userOptionId == Some(c.id);
      var o := UserOption(r).value;
      var a :| 0 <= a < |options| && options[a] == o;
      var b :| 0 <= b < |options| && options[b] == c;
      assert a == b;
    }
  }

  /**
   * The index runs over the challenges and one past them; the results list
   * has one graded entry per challenge passed plus one for the challenge
   * whose verdict is on screen; the progress bar counts the correct ones.
   */
  ghost predicate Progress(challenges: seq<Challenge>, activeIndex: nat, selected: Option<int>,
                           status: Option<Verdict>, results: seq<Result>, steps: nat)
  {
    activeIndex <= |challenges| &&
    (status.Some? ==> activeIndex < |challenges| && HasSelection(selected)) &&
    |results| == activeIndex + (if status.Some? then 1 else 0) &&
    (forall i :: 0 <= i < |results| ==> results[i].challenge == challenges[i] && Graded(results[i])) &&
    (status.Some? ==> results[activeIndex] == Result(challenges[activeIndex], selected, status.value)) &&
    steps == CorrectCount(results)
  }

  /** Grading the current challenge keeps the invariant and puts the verdict on screen. */
  lemma GradeKeepsProgress(challenges: seq<Challenge>, k: nat, selected: Option<int>,
                           results: seq<Result>, steps: nat, v: Verdict)
    requires Progress(challenges, k, selected, None, results, steps)
    requires k < |challenges| && Evaluate(challenges[k].options, selected) == Some(v == Correct)
    ensures Progress(challenges, k, selected, Some(v), results + [Result(challenges[k], selected, v)],
                     steps + (if v == Correct then 1 else 0))
  {
    var r := Result(challenges[k], selected, v);
    CorrectCountAppend(results, r);
    forall i | 0 <= i < |results + [r]|
      ensures (results + [r])[i].challenge == challenges[i] && Graded((results + [r])[i])
    {
      if i < |results| {
        assert (results + [r])[i] == results[i];
      }
    }
  }

  /** Moving past a challenge whose verdict is shown keeps the invariant. */
  lemma AdvanceKeepsProgress(challenges: seq<Challenge>, k: nat, selected: Option<int>,
                             v: Verdict, results: seq<Result>, steps: nat)
    requires Progress(challenges, k, selected, Some(v), results, steps)
    ensures Progress(challenges, k + 1, None, None, results, steps)
  {
  }

  class LessonRunner {
    const challenges: seq<Challenge>
    var activeIndex: nat
    var selectedOption: Option<int>
    /** "none" is `None`; "correct" and "wrong" are the verdict just shown. */
    var status: Option<Verdict>
    var results: seq<Result>
    /**
     * The progress bar, counted in steps: it shows `percentageSteps * 100 / |challenges|`
     * per cent, since each correct grading adds `100 / challenges.length`.
     */
    var percentageSteps: nat

    /** The progress invariant on the runner's fields. */
    ghost predicate Valid()
      reads this
    {
      Progress(challenges, activeIndex, selectedOption, status, results, percentageSteps)
    }

    /** `!challenge`: the attempt is over and the results screen is shown. */
    predicate Finished()
      reads this
      ensures Finished() <==> ChallengeAt(challenges, activeIndex).None?
    {
      activeIndex >= |challenges|
    }

    constructor (challenges: seq<Challenge>)
      ensures Valid()
      ensures this.challenges == challenges
      ensures activeIndex == 0 && selectedOption == None && status == None && results == [] && percentageSteps == 0
    {
      this.challenges := challenges;
      activeIndex := 0;
      selectedOption := None;
      status := None;
      results := [];
      percentageSteps := 0;
    }

    /** `onNext`: move to the next challenge. */
    method Next()
      modifies this`activeIndex
      ensures activeIndex == old(activeIndex) + 1
    {
      activeIndex := activeIndex + 1;
    }

    /** `onSelect`: ignored while a verdict is shown, otherwise replaces the selection. */
    method Select(id: int)
      requires Valid()
      modifies this
      ensures Valid()
      ensures selectedOption == if old(status).None? then Some(id) else old(selectedOption)
      ensures activeIndex == old(activeIndex) && status == old(status)
      ensures results == old(results) && percentageSteps == old(percentageSteps)
    {
      if status.Some? {
        return;
      }
      selectedOption := Some(id);
    }

    /**
     * `onContinue`: nothing without a selection; with a verdict on screen,
     * advance and clear it without grading; otherwise grade the selection
     * against the first correct option (nothing when there is none), show the
     * verdict and append one result, counting a correct one on the progress bar.
     */
    method Continue()
      requires Valid()
      modifies this
      ensures Valid()
      ensures !HasSelection(old(selectedOption)) ==> unchanged(this)
      ensures HasSelection(old(selectedOption)) && old(status).Some? ==>
                activeIndex == old(activeIndex) + 1 && status == None && selectedOption == None &&
                results == old(results) && percentageSteps == old(percentageSteps)
      ensures old(status).None? && old(Evaluate(OptionsAt(challenges, activeIndex), selectedOption)).None? ==>
                unchanged(this)
      ensures old(status).None? && old(Evaluate(OptionsAt(challenges, activeIndex), selectedOption)).Some? ==>
                var verdict := if old(Evaluate(OptionsAt(challenges, activeIndex), selectedOption)).value then Correct else Wrong;
                activeIndex == old(activeIndex) && selectedOption == old(selectedOption) &&
                status == Some(verdict) &&
                results == old(results) + [Result(challenges[activeIndex], selectedOption, verdict)] &&
                percentageSteps == old(percentageSteps) + (if verdict == Correct then 1 else 0)
      ensures old(Finished()) ==> unchanged(this)
    {
      if !HasSelection(selectedOption) {
        return;
      }
      if status.Some? {
        AdvanceKeepsProgress(challenges, activeIndex, selectedOption, status.value, results, percentageSteps);
        Next();
        status := None;
        selectedOption := None;
        return;
      }
      var correctOption := CorrectOption(OptionsAt(challenges, activeIndex));
      if correctOption.None? {
        return;
      }
      var challenge := challenges[activeIndex];
      if correctOption.value.id == selectedOption.value {
        GradeKeepsProgress(challenges, activeIndex, selectedOption, results, percentageSteps, Correct);
        status := Some(Correct);
        percentageSteps := percentageSteps + 1;
        results := results + [Result(challenge, selectedOption, Correct)];
      } else {
        GradeKeepsProgress(challenges, activeIndex, selectedOption, results, percentageSteps, Wrong);
        status := Some(Wrong);
        results := results + [Result(challenge, selectedOption, Wrong)];
      }
    }
  }

  /**
   * Once the attempt is finished the results screen lists one entry per
   * challenge, in challenge order, and its counters split the challenges.
   */
  lemma FinishedSummary(r: LessonRunner)
    requires r.Valid() && r.Finished()
    ensures |r.results| == |r.challenges| && r.status.None?
    ensures forall i :: 0 <= i < |r.challenges| ==> r.results[i].challenge == r.challenges[i]
    ensures Render(r.results).correctCount + Render(r.results).incorrectCount == |r.challenges|
    ensures Render(r.results).correctCount == r.percentageSteps
  {
  }

  /** A graded result is correct exactly when its option is the first one flagged correct. */
  lemma GradedMeans(r: Result)
    requires Graded(r)
    ensures CorrectOption(r.challenge.options).Some?
    ensures r.status == Correct <==> r.userOptionId.value == CorrectOption(r.challenge.options).value.id
  {
  }

  /** `GradedMeans` for a whole list of results holding the given picks. */
  lemma AllGradedMeans(results: seq<Result>, picks: seq<int>)
    requires |results| == |picks|
    requires forall i :: 0 <= i < |results| ==> Graded(results[i]) && results[i].userOptionId == Some(picks[i])
    ensures forall i :: 0 <= i < |results| ==>
              CorrectOption(results[i].challenge.options).Some? &&
              (results[i].status == Correct <==> picks[i] == CorrectOption(results[i].challenge.options).value.id)
  {
    forall i | 0 <= i < |results|
      ensures results[i].status == Correct <==> picks[i] == CorrectOption(results[i].challenge.options).value.id
    {
      GradedMeans(results[i]);
    }
  }

  /** Appending the result of turn `i` keeps the record of which option each turn picked. */
  lemma PicksExtend(before: seq<Result>, r: Result, picks: seq<int>, i: nat)
    requires |before| == i < |picks| && r.userOptionId == Some(picks[i])
    requires forall k :: 0 <= k < i ==> before[k].userOptionId == Some(picks[k])
    ensures forall k :: 0 <= k < i + 1 ==> (before + [r])[k].userOptionId == Some(picks[k])
  {
  }

  /**
   * One turn of a practice lesson: pick an option of the current challenge,
   * confirm it to see the verdict and confirm again to move on.
   */
  method Practise(runner: LessonRunner, pick: int)
    requires runner.Valid() && runner.status.None? && runner.activeIndex < |runner.challenges|
    requires pick != 0 && CorrectOption(runner.challenges[runner.activeIndex].options).Some?
    modifies runner
    ensures runner.Valid() && runner.status.None?
    ensures runner.activeIndex == old(runner.activeIndex) + 1
    ensures var c := runner.challenges[old(runner.activeIndex)];
            runner.results == old(runner.results) +
              [Result(c, Some(pick), if pick == CorrectOption(c.options).value.id then Correct else Wrong)]
  {
    runner.Select(pick);
    runner.Continue();
    runner.Continue();
  }

  /**
   * A whole practice lesson: picking `picks[i]` on challenge `i`, confirming
   * once to see the verdict and once more to move on, ends on the results
   * screen with one result per challenge, graded in order, and a progress bar
   * that counted exactly the correct ones.
   */
  method PracticeLesson(challenges: seq<Challenge>, picks: seq<int>) returns (results: seq<Result>, steps: nat)
    requires |picks| == |challenges|
    requires forall i :: 0 <= i < |picks| ==> picks[i] != 0 && CorrectOption(challenges[i].options).Some?
    ensures |results| == |challenges|
    ensures forall i :: 0 <= i < |challenges| ==>
              results[i].challenge == challenges[i] && results[i].userOptionId == Some(picks[i]) &&
              (results[i].status == Correct <==> picks[i] == CorrectOption(challenges[i].options).value.id)
    ensures steps == CorrectCount(results)
  {
    var runner := new LessonRunner(challenges);
    var i := 0;
    while i < |challenges|
      invariant 0 <= i <= |challenges|
      invariant runner.Valid() && runner.challenges == challenges
      invariant runner.activeIndex == i && runner.status.None?
      invariant forall k :: 0 <= k < i ==> runner.results[k].userOptionId == Some(picks[k])
    {
      ghost var before := runner.results;
      Practise(runner, picks[i]);
      PicksExtend(before, runner.results[i], picks, i);
      i := i + 1;
    }
    results, steps := runner.results, runner.percentageSteps;
    AllGradedMeans(results, picks);
  }
}
