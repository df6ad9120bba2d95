/**
 * Challenges (quiz questions) and their options, as both quiz runners and the
 * lesson results screen receive them, together with the lookups they share:
 * the `find` over an option list, the falsy test on the current selection and
 * the grading of a selection against the first option flagged correct.
 */
module Challenges {

  datatype Option<+T> = None | Some(value: T)

  /** One selectable answer of a challenge; `correct` is the flag stored with it. */
  datatype ChallengeOption = ChallengeOption(id: int, text: string, correct: bool)

  /**
   * A challenge with its options in display order. The database row carries more
   * (type, order, audio); the runners only read the id, the question and the options.
   */
  datatype Challenge = Challenge(id: int, question: string, options: seq<ChallengeOption>)

  /** `Array.prototype.findIndex`: the position of the first element satisfying `p`. */
  function FindIndex<T>(s: seq<T>, p: T -> bool): (r: Option<nat>)
    ensures r.Some? ==> r.value < |s| && p(s[r.value])
    ensures r.Some? ==> forall j :: 0 <= j < r.value ==> !p(s[j])
    ensures r.None? <==> forall j :: 0 <= j < |s| ==> !p(s[j])
  {
    if s == [] then None
    else if p(s[0]) then Some(0)
    else match FindIndex(s[1..], p)
      case None => None
      case Some(i) => Some(i + 1)
  }

  /**
   * `options.find((option) => option.correct)`: the first option flagged correct,
   * absent when no option carries the flag.
   */
  function CorrectOption(options: seq<ChallengeOption>): (r: Option<ChallengeOption>)
    ensures r.None? <==> forall j :: 0 <= j < |options| ==> !options[j].correct
    ensures r.Some? ==> r.value.correct
  {
    match FindIndex(options, (o: ChallengeOption) => o.correct)
    case None => None
    case Some(k) => Some(options[k])
  }

  /** When several options are flagged correct, `CorrectOption` is the first of them. */
  lemma CorrectOptionIsFirst(options: seq<ChallengeOption>)
    ensures CorrectOption(options).Some? ==>
              exists k :: 0 <= k < |options| && options[k] == CorrectOption(options).value &&
                          forall j :: 0 <= j < k ==> !options[j].correct
  {
    var found := FindIndex(options, (o: ChallengeOption) => o.correct);
    if found.Some? {
      var k := found.value;
      assert options[k] == CorrectOption(options).value;
    }
  }

  /**
   * `if (!selectedOption) return;`: the selection counts only when it is defined
   * and not 0, since 0 is falsy.
   */
  predicate HasSelection(selected: Option<int>)
  {
    selected.Some? && selected.value != 0
  }

  /**
   * `challenges[activeIndex]`: the current challenge, undefined past the end of
   * the list, in which case neither runner renders a question.
   */
  function ChallengeAt(challenges: seq<Challenge>, index: nat): (r: Option<Challenge>)
    ensures r.None? <==> index >= |challenges|
    ensures r.Some? ==> r.value in challenges
  {
    if index < |challenges| then Some(challenges[index]) else None
  }

  /** `challenge?.challengeOptions ?? []`: the options on screen, none past the end. */
  function OptionsAt(challenges: seq<Challenge>, index: nat): (r: seq<ChallengeOption>)
    ensures index >= |challenges| ==> r == []
    ensures index < |challenges| ==> r == challenges[index].options
  {
    match ChallengeAt(challenges, index)
    case None => []
    case Some(c) => c.options
  }

  /**
   * The grading both runners do on "continue": nothing when the selection is
   * falsy or no option is flagged correct, otherwise whether the selection is
   * the id of the first correct option.
   */
  function Evaluate(options: seq<ChallengeOption>, selected: Option<int>): (r: Option<bool>)
    ensures r.Some? <==> HasSelection(selected) && CorrectOption(options).Some?
    ensures r.Some? ==> (r.value <==> selected.value == CorrectOption(options).value.id)
  {
    if !HasSelection(selected) then None
    else match CorrectOption(options)
      case None => None
      case Some(c) => Some(c.id == selected.value)
  }

  /**
   * What the grading means in terms of the options alone: a grade exists exactly
   * when the selection is truthy and some option is flagged, and it is "correct"
   * exactly when the selection is the id of a flagged option no flagged option precedes.
   */
  lemma EvaluateMeans(options: seq<ChallengeOption>, selected: Option<int>)
    ensures Evaluate(options, selected).Some? <==>
              HasSelection(selected) && exists k :: 0 <= k < |options| && options[k].correct
    ensures Evaluate(options, selected) == Some(true) <==>
              HasSelection(selected) &&
              exists k :: 0 <= k < |options| && options[k].correct && options[k].id == selected.value &&
                          forall j :: 0 <= j < k ==> !options[j].correct
  {
    CorrectOptionIsFirst(options);
    if HasSelection(selected) && CorrectOption(options).Some? {
      var c := CorrectOption(options).value;
      var k :| 0 <= k < |options| && options[k] == c && c.correct && forall j :: 0 <= j < k ==> !options[j].correct;
      if exists k' :: 0 <= k' < |options| && options[k'].correct && options[k'].id == selected.value &&
                      forall j :: 0 <= j < k' ==> !options[j].correct {
        var k' :| 0 <= k' < |options| && options[k'].correct && options[k'].id == selected.value &&
                  forall j :: 0 <= j < k' ==> !options[j].correct;
        assert k' == k;
      }
    }
  }
}
