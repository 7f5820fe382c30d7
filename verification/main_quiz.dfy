/** The practice quiz of Frontend/src/components/main/tabs/QuizSection.jsx:
    five built-in questions, one answer per question, an explanation that
    locks the answer, and a score out of five. The clock is an input. */
module MainQuiz {
  import opened Wrappers
  import opened JsMath
  import opened Sorting

  /** The `correctAnswer` of each built-in question, in order. */
  const CorrectAnswers: seq<int> := [1, 2, 1, 2, 2]
  const QuestionCount: nat := 5

  datatype Phase = Landing | Active | Results

  datatype Quiz = Quiz(phase: Phase, index: nat, selected: map<nat, int>, showExplanation: bool,
                       score: nat, startTime: Option<int>, timeSpent: int)

  const Initial: Quiz := Quiz(Landing, 0, map[], false, 0, None, 0)

  /** `startQuiz()` at time `now`. */
  function Start(q: Quiz, now: int): Quiz {
    Quiz(Active, 0, map[], false, 0, Some(now), q.timeSpent)
  }

  /** `handleAnswerSelect(answerIndex)`. */
  function Select(q: Quiz, answer: int): Quiz
    requires q.index < QuestionCount
  {
    if q.showExplanation then q
    else
      q.(selected := q.selected[q.index := answer], showExplanation := true,
         score := if answer == CorrectAnswers[q.index] then q.score + 1 else q.score)
  }

  /** `nextQuestion()` at time `now`; a missing start time reads as 0. */
  function Next(q: Quiz, now: int): Quiz {
    if q.index < QuestionCount - 1 then q.(index := q.index + 1, showExplanation := false)
    else q.(timeSpent := RoundDiv(now - q.startTime.GetOr(0), 1000), phase := Results)
  }

  /** `resetQuiz()`. */
  function Reset(q: Quiz): Quiz { Initial }

  /** Once the explanation is shown, further selections change nothing. */
  lemma SelectionLocked(q: Quiz, answer: int)
    requires q.index < QuestionCount && q.showExplanation
    ensures Select(q, answer) == q
  {
  }

  /** A selection records the answer under the current question only, and
      raises the score by one exactly when it is that question's answer. */
  lemma SelectScores(q: Quiz, answer: int)
    requires q.index < QuestionCount && !q.showExplanation
    ensures var r := Select(q, answer);
      r.selected == q.selected[q.index := answer] && r.showExplanation && r.index == q.index
      && (r.score == q.score + 1 <==> answer == CorrectAnswers[q.index])
      && (r.score == q.score <==> answer != CorrectAnswers[q.index])
  {
  }

  /** The stepper moves one question at a time and ends on the results
      after the last one. */
  lemma NextAdvances(q: Quiz, now: int)
    requires q.index < QuestionCount
    ensures var r := Next(q, now);
      (q.index < QuestionCount - 1 ==> r.index == q.index + 1 && !r.showExplanation && r.phase == q.phase)
      && (q.index == QuestionCount - 1 ==> r.phase == Results && r.index == q.index)
      && r.index < QuestionCount && r.score == q.score
  {
  }

  /** What holds of every quiz the handlers reach: answers only for
      questions reached so far, none yet for the current one while its
      explanation is hidden, and no more points than answers. */
  predicate Valid(q: Quiz) {
    q.index < QuestionCount
    && (forall k :: k in q.selected ==> k <= q.index)
    && (!q.showExplanation ==> q.index !in q.selected)
    && q.score <= |q.selected|
  }

  /** The score never exceeds the number of questions answered, whatever
      sequence of handlers runs. */
  lemma HandlersKeepValid(q: Quiz, answer: int, now: int)
    requires Valid(q)
    ensures Valid(Start(q, now)) && Valid(Select(q, answer)) && Valid(Next(q, now)) && Valid(Reset(q))
    ensures Select(q, answer).score <= |Select(q, answer).selected| <= QuestionCount
  {
    SmallKeySet(q.selected[q.index := answer].Keys);
  }

  /** A set of indexes below five has at most five elements. */
  lemma SmallKeySet(keys: set<nat>)
    requires forall k :: k in keys ==> k < QuestionCount
    ensures |keys| <= QuestionCount
  {
    assert keys <= {0, 1, 2, 3, 4};
    var all: set<nat> := {0, 1, 2, 3, 4};
    assert |all| == 5;
    SubsetCard(keys, all);
  }


  /** Resetting returns to the landing state with nothing answered. */
  lemma ResetIsInitial(q: Quiz)
    ensures Reset(q).phase == Landing && Reset(q).score == 0 && Reset(q).selected == map[]
      && Reset(q).index == 0 && !Reset(q).showExplanation
  {
  }

  // ---------------------------------------------------------------- results

  /** `Math.round((score / 5) * 100)`. */
  function Percentage(score: nat): int { Percent(score, QuestionCount) }

  datatype Tone = Success | Warning | Danger

  /** `getScoreColor(percentage)`. */
  function ScoreColor(percentage: int): Tone {
    if percentage >= 80 then Success else if percentage >= 60 then Warning else Danger
  }

  /** Every point is worth twenty percent, so four or five correct answers
      show as success, three as a warning, and fewer as danger. */
  lemma ScoreBands(score: nat)
    requires score <= QuestionCount
    ensures Percentage(score) == 20 * score
    ensures ScoreColor(Percentage(score)) == Success <==> score >= 4
    ensures ScoreColor(Percentage(score)) == Warning <==> score == 3
    ensures ScoreColor(Percentage(score)) == Danger <==> score <= 2
  {
  }

  /** The difficulty colour of a question or card (both main tabs share the rule). */
  function DifficultyColor(difficulty: string): string {
    if difficulty == "Easy" then "text-success"
    else if difficulty == "Medium" then "text-warning"
    else if difficulty == "Hard" then "text-danger"
    else "text-muted"
  }
}
