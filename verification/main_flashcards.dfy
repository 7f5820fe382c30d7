/** The practice deck of Frontend/src/components/main/tabs/FlashcardsSection.jsx:
    eight built-in cards, a set of flipped cards, a result per card, and the
    session statistics. The clock is an input. */
module MainFlashcards {
  import opened Wrappers
  import opened JsMath
  import opened Sorting
  import MainQuiz

  const CardCount: nat := 8

  datatype Phase = Landing | Studying | Completed

  /** Flipped cards and results are keyed by card index (the source keys
      them by the index's decimal string, which names the same card). */
  datatype Study = Study(phase: Phase, index: nat, flipped: set<nat>, results: map<nat, string>,
                         startTime: Option<int>, studyTime: int)

  function Start(s: Study, now: int): Study {
    Study(Studying, 0, {}, map[], Some(now), s.studyTime)
  }

  /** `handleCardFlip()`: flips the current card over or back. */
  function Flip(s: Study): Study {
    s.(flipped := if s.index in s.flipped then s.flipped - {s.index} else s.flipped + {s.index})
  }

  /** `handleCardResult(result)`. */
  function Record(s: Study, result: string): Study {
    s.(results := s.results[s.index := result])
  }

  /** `nextCard()` at time `now`. */
  function Next(s: Study, now: int): Study {
    if s.index < CardCount - 1 then s.(index := s.index + 1)
    else s.(studyTime := RoundDiv(now - s.startTime.GetOr(0), 1000), phase := Completed)
  }

  /** `previousCard()`. */
  function Previous(s: Study): Study {
    if s.index > 0 then s.(index := s.index - 1) else s
  }

  function Reset(s: Study): Study { Study(Landing, 0, {}, map[], None, 0) }

  /** A flip changes the membership of the current card only, and flipping
      twice restores the set. */
  lemma FlipToggles(s: Study)
    ensures (s.index in Flip(s).flipped) <==> (s.index !in s.flipped)
    ensures forall k :: k != s.index ==> (k in Flip(s).flipped <==> k in s.flipped)
    ensures Flip(Flip(s)) == s
  {
  }

  /** Recording a result sets or overwrites the current card's result and
      leaves every other card's result as it was. */
  lemma RecordOnlyCurrent(s: Study, result: string)
    ensures var r := Record(s, result);
      s.index in r.results && r.results[s.index] == result
      && (forall k :: k != s.index ==> (k in r.results <==> k in s.results))
      && (forall k :: k != s.index && k in s.results ==> r.results[k] == s.results[k])
      && Record(r, result) == r
  {
  }

  /** The index never leaves the deck, and moving past the last card ends
      the session. */
  lemma IndexInDeck(s: Study, now: int)
    requires s.index < CardCount
    ensures Next(s, now).index < CardCount && Previous(s).index < CardCount
    ensures s.index == CardCount - 1 ==> Next(s, now).phase == Completed
    ensures s.index < CardCount - 1 ==> Next(s, now).index == s.index + 1 && Next(s, now).phase == s.phase
    ensures s.index > 0 ==> Previous(s).index == s.index - 1
    ensures s.index == 0 ==> Previous(s) == s
  {
  }

  // ---------------------------------------------------------------- statistics

  datatype Stats = Stats(totalAnswered: nat, correctAnswers: nat, accuracy: int)

  /** The cards whose result is exactly "correct". */
  function CorrectCards(results: map<nat, string>): set<nat> {
    set k | k in results && results[k] == "correct"
  }

  /** `getStudyStats()`. */
  function StudyStats(results: map<nat, string>): Stats {
    var answered := |results|;
    var correct := |CorrectCards(results)|;
    Stats(answered, correct, if answered > 0 then Percent(correct, answered) else 0)
  }

  /** Correct answers are a share of the answered cards, so the accuracy is
      a percentage, 0 for no answers and 100 when every answer is correct. */
  lemma StatsBounds(results: map<nat, string>)
    ensures var st := StudyStats(results);
      st.correctAnswers <= st.totalAnswered
      && 0 <= st.accuracy <= 100
      && (st.totalAnswered == 0 ==> st.accuracy == 0)
      && (st.totalAnswered > 0 && st.correctAnswers == st.totalAnswered ==> st.accuracy == 100)
  {
    var correct := CorrectCards(results);
    assert correct <= results.Keys;
    SubsetCard(correct, results.Keys);
    if |results| > 0 {
      PercentBounds(|correct|, |results|);
    }
  }


  // ---------------------------------------------------------------- difficulty styles

  /** `getDifficultyBg(difficulty)`. */
  function DifficultyBg(difficulty: string): string {
    if difficulty == "Easy" then "bg-success-light border-success"
    else if difficulty == "Medium" then "bg-warning-light border-warning"
    else if difficulty == "Hard" then "bg-danger-light border-danger"
    else "bg-bg-tertiary border-border-light"
  }

  /** The text colour and the background pick the same tone: success for
      Easy, warning for Medium, danger for Hard, and the neutral style for
      any other value. */
  lemma DifficultyStylesAgree(difficulty: string)
    ensures MainQuiz.DifficultyColor(difficulty) == "text-success" <==> DifficultyBg(difficulty) == "bg-success-light border-success"
    ensures MainQuiz.DifficultyColor(difficulty) == "text-warning" <==> DifficultyBg(difficulty) == "bg-warning-light border-warning"
    ensures MainQuiz.DifficultyColor(difficulty) == "text-danger" <==> DifficultyBg(difficulty) == "bg-danger-light border-danger"
    ensures MainQuiz.DifficultyColor(difficulty) == "text-muted" <==>
      difficulty != "Easy" && difficulty != "Medium" && difficulty != "Hard"
  {
  }
}
