/**
 * The summary a finished lesson attempt shows: how many results were correct
 * and how many were not, and for each result, in order, its number, the
 * option the learner picked and, for a wrong one, the correct option.
 */
module ResultsScreen {
  import opened Challenges

  /** The outcome of one graded challenge ("correct" | "wrong"). */
  datatype Verdict = Correct | Wrong

  /** One entry of the lesson runner's results list. */
  datatype Result = Result(challenge: Challenge, userOptionId: Option<int>, status: Verdict)

  /** What is rendered for one result. */
  datatype Entry = Entry(
    number: nat,                  // "Pregunta {index + 1}"
    question: string,
    status: Verdict,
    yourAnswer: string,           // "Tu Respuesta: ..."
    correctAnswer: Option<string> // "Respuesta Correcta: ...", present only when shown
  )

  /** The whole screen: the two counters and one entry per result. */
  datatype Summary = Summary(correctCount: nat, incorrectCount: nat, entries: seq<Entry>)

  /** Shown as the learner's answer when no option of the challenge has the recorded id. */
  const NoAnswer: string := "Sin respuesta"

  /** `results.filter((r) => r.status === "correct").length` */
  function CorrectCount(results: seq<Result>): (n: nat)
    ensures n <= |results|
  {
    if results == [] then 0
    else (if results[0].status == Correct then 1 else 0) + CorrectCount(results[1..])
  }

  /** The number of results graded wrong, counted on its own. */
  function WrongCount(results: seq<Result>): nat
  {
    if results == [] then 0
    else (if results[0].status == Wrong then 1 else 0) + WrongCount(results[1..])
  }

  /** Every result is either correct or wrong, so the two counts cover the list. */
  lemma {:induction false} CountsCoverResults(results: seq<Result>)
    ensures CorrectCount(results) + WrongCount(results) == |results|
  {
    if results != [] {
      CountsCoverResults(results[1..]);
    }
  }

  /** Appending one result adds one to the count exactly when it is correct. */
  lemma {:induction false} CorrectCountAppend(results: seq<Result>, r: Result)
    ensures CorrectCount(results + [r]) == CorrectCount(results) + (if r.status == Correct then 1 else 0)
  {
    if results == [] {
      assert [r][1..] == [];
    } else {
      assert (results + [r])[1..] == results[1..] + [r];
      CorrectCountAppend(results[1..], r);
    }
  }

  /** A count equals the length exactly when every result is correct. */
  lemma {:induction false} AllCorrect(results: seq<Result>)
    ensures CorrectCount(results) == |results| <==> forall i :: 0 <= i < |results| ==> results[i].status == Correct
  {
    if results != [] {
      AllCorrect(results[1..]);
      if CorrectCount(results) == |results| {
        forall i | 0 <= i < |results| ensures results[i].status == Correct {
          if i > 0 { assert results[i] == results[1..][i - 1]; }
        }
      }
      if forall i :: 0 <= i < |results| ==> results[i].status == Correct {
        forall i | 0 <= i < |results[1..]| ensures results[1..][i].status == Correct {
          assert results[1..][i] == results[i + 1];
        }
      }
    }
  }

  /** `results.length - correctCount`, which is the number of wrong results. */
  function IncorrectCount(results: seq<Result>): (n: nat)
    ensures n == WrongCount(results)
  {
    CountsCoverResults(results);
    |results| - CorrectCount(results)
  }

  /** `challenge.challengeOptions.find((o) => o.id === userOptionId)` */
  function UserOption(r: Result): (o: Option<ChallengeOption>)
    ensures o.Some? ==> o.value in r.challenge.options && r.userOptionId == Some(o.value.id)
    ensures o.Some? ==> exists k :: 0 <= k < |r.challenge.options| && r.challenge.options[k] == o.value &&
                                   forall j :: 0 <= j < k ==> r.userOptionId != Some(r.challenge.options[j].id)
    ensures o.None? <==> forall j :: 0 <= j < |r.challenge.options| ==> r.userOptionId != Some(r.challenge.options[j].id)
  {
    match FindIndex(r.challenge.options, (c: ChallengeOption) => r.userOptionId == Some(c.id))
    case None => None
    case Some(k) =>
      assert forall j :: 0 <= j < k ==> r.userOptionId != Some(r.challenge.options[j].id);
      Some(r.challenge.options[k])
  }

  /**
   * `userOption?.text || "Sin respuesta"`: the text of the learner's option,
   * or the fallback when there is none or its text is empty (and so falsy).
   */
  function YourAnswer(r: Result): (s: string)
    ensures s != NoAnswer ==> exists j :: 0 <= j < |r.challenge.options| && r.userOptionId == Some(r.challenge.options[j].id) && s == r.challenge.options[j].text
    ensures (forall j :: 0 <= j < |r.challenge.options| ==> r.userOptionId != Some(r.challenge.options[j].id)) ==> s == NoAnswer
    ensures UserOption(r).Some? && UserOption(r).value.text != "" ==> s == UserOption(r).value.text
    ensures UserOption(r).None? || UserOption(r).value.text == "" ==> s == NoAnswer
  {
    match UserOption(r)
    case Some(o) => if o.text != "" then o.text else NoAnswer
    case None => NoAnswer
  }

  /**
   * The entry rendered for the result at position `index`. The correct-answer
   * line appears only for a wrong result; it shows the first option flagged
   * correct, and nothing (the empty text) when no option carries the flag.
   */
  function EntryFor(index: nat, r: Result): (e: Entry)
    ensures e.number == index + 1 && e.question == r.challenge.question && e.status == r.status
    ensures e.yourAnswer == YourAnswer(r)
    ensures e.correctAnswer.Some? <==> r.status == Wrong
    ensures e.correctAnswer.Some? && CorrectOption(r.challenge.options).Some? ==>
              e.correctAnswer.value == CorrectOption(r.challenge.options).value.text
    ensures e.correctAnswer.Some? && CorrectOption(r.challenge.options).None? ==> e.correctAnswer.value == ""
  {
    var correctLine :=
      if r.status == Wrong then
        Some(match CorrectOption(r.challenge.options) case Some(c) => c.text case None => "")
      else None;
    Entry(index + 1, r.challenge.question, r.status, YourAnswer(r), correctLine)
  }

  /** `results.map((result, index) => ...)`: one entry per result, in list order. */
  function Entries(results: seq<Result>): (es: seq<Entry>)
    ensures |es| == |results|
    ensures forall i :: 0 <= i < |results| ==> es[i].number == i + 1 && es[i].status == results[i].status
    ensures forall i :: 0 <= i < |results| ==> (es[i].correctAnswer.Some? <==> results[i].status == Wrong)
    ensures forall i :: 0 <= i < |results| ==> es[i] == EntryFor(i, results[i])
  {
    seq(|results|, i requires 0 <= i < |results| => EntryFor(i, results[i]))
  }

  /** The results screen as a whole. */
  function Render(results: seq<Result>): (s: Summary)
    ensures s.correctCount + s.incorrectCount == |results|
    ensures s.correctCount == CorrectCount(results) && s.incorrectCount == WrongCount(results)
    ensures |s.entries| == |results| && s.entries == Entries(results)
  {
    Summary(CorrectCount(results), IncorrectCount(results), Entries(results))
  }
}
