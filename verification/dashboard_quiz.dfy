/** The quiz page of the dashboard, Frontend/src/components/dashboard/sections/QuizSection.jsx:
    turning generated or saved question data into quiz questions (with the
    correct-answer index normalised), taking the quiz (answers, navigation,
    the countdown), scoring it, and the result record sent to the server,
    including the content-derived id of an AI-generated quiz. The clock,
    `JSON.stringify` and the stored user record are inputs. */
module DashboardQuiz {
  import opened Wrappers
  import opened Text
  import opened JsValues
  import opened Sorting
  import opened JsMath
  import opened StringHash
  import opened SessionRecord

  /** A question as the quiz holds it after normalisation. */
  datatype Question = Question(id: nat, question: Value, options: Value, correctAnswer: int, explanation: Value)

  const NoExplanation: string := "No explanation provided."
  const NoQuestions: string := "Invalid quiz data - no questions found"

  // ---------------------------------------------------------------- normalisation

  /** `options.length`: defined for arrays and strings, `undefined` otherwise. */
  function Length(v: Value): Option<nat> {
    match v
    case Arr(items) => Some(|items|)
    case Str(s) => Some(|s|)
    case _ => None
  }

  /** The test `findIndex` applies: either lower-cased text contains the other. */
  predicate Mentions(option: string, answer: string) {
    Contains(ToLower(option), ToLower(answer)) || Contains(ToLower(answer), ToLower(option))
  }

  /** The first `j` options are strings that do not mention the answer, so
      `findIndex` reaches position `j`. */
  predicate PassedOver(items: seq<Value>, answer: string, j: nat)
    requires j <= |items|
  {
    forall k :: 0 <= k < j ==> items[k].Str? && !Mentions(items[k].s, answer)
  }

  /** `options.findIndex(opt => …)`: the first mentioning option, -1 when
      there is none, and a `TypeError` when an option reached is not a string. */
  function FindAnswer(items: seq<Value>, answer: string): (r: Result<int>)
    ensures r.Ok? && r.value >= 0 ==>
      r.value < |items| && PassedOver(items, answer, r.value)
      && items[r.value].Str? && Mentions(items[r.value].s, answer)
    ensures r.Ok? && r.value < 0 ==> r.value == -1 && PassedOver(items, answer, |items|)
    ensures r.Err? ==>
      (exists j :: 0 <= j < |items| && PassedOver(items, answer, j) && !items[j].Str?)
    decreases |items|
  {
    if items == [] then Ok(-1)
    else if !items[0].Str? then Err(TypeError)
    else if Mentions(items[0].s, answer) then Ok(0)
    else
      match FindAnswer(items[1..], answer)
      case Err(m) =>
        ghost var j :| 0 <= j < |items[1..]| && PassedOver(items[1..], answer, j) && !items[1..][j].Str?;
        assert PassedOver(items, answer, j + 1);
        Err(m)
      case Ok(i) => Ok(if i < 0 then -1 else i + 1)
  }

  /** The answer index once the string answer is looked up among the options
      and an index that is not a number, negative or past the last option is
      replaced by 0. */
  function NormaliseAnswer(raw: Value, options: Value): (r: Result<int>)
    ensures r.Ok? ==> r.value >= 0
    ensures r.Ok? && Length(options).Some? ==> r.value == 0 || r.value < Length(options).value
  {
    var looked :=
      if raw.Str? && Length(options).Some? && Length(options).value > 0 then
        if options.Arr? then
          match FindAnswer(options.items, raw.s)
          case Err(m) => Err(m)
          case Ok(i) => Ok(Num(if i >= 0 then i else 0))
        else Err(TypeError)   // a string has no `findIndex`
      else Ok(raw);
    match looked
    case Err(m) => Err(m)
    case Ok(v) =>
      var len := Length(options);
      Ok(if !v.Num? || v.n < 0 || (len.Some? && v.n >= len.value) then 0 else v.n)
  }

  /** A numeric answer is kept when it is a valid index and becomes 0
      otherwise; when `options` has no length the upper check never fires. */
  lemma NumericAnswerRule(n: int, options: Value)
    ensures var len := Length(options);
      NormaliseAnswer(Num(n), options)
        == Ok(if 0 <= n && (len.None? || n < len.value) then n else 0)
  {
  }

  /** A string answer against an array of options picks the first option
      that mentions it (or is mentioned by it), falls back to 0 when none
      does, and fails when an option reached is not a string; against a
      non-empty string of options it fails; with no options it becomes 0. */
  lemma StringAnswerRule(answer: string, options: Value)
    ensures var r := NormaliseAnswer(Str(answer), options);
      (options.Arr? && options.items != [] ==>
        var f := FindAnswer(options.items, answer);
        (f.Err? <==> r.Err?) && (f.Ok? ==> r == Ok(if f.value >= 0 then f.value else 0)))
      && (options.Str? && options.s != "" ==> r.Err?)
      && (Length(options).None? || Length(options) == Some(0) ==> r == Ok(0))
  {
  }

  /** Any answer that is neither a number nor a string becomes 0. */
  lemma OtherAnswerRule(raw: Value, options: Value)
    requires !raw.Num? && !raw.Str?
    ensures NormaliseAnswer(raw, options) == Ok(0)
  {
  }

  /** One entry of `parsedQuizData.map(...)`: the first truthy field of each
      group of alternatives, or its default. Reading a field of `null` or
      `undefined` throws. */
  function NormaliseQuestion(q: Value, index: nat): (r: Result<Question>)
    ensures r.Ok? ==> r.value.id == index + 1 && r.value.correctAnswer >= 0
    ensures r.Ok? ==> Truthy(r.value.question) && Truthy(r.value.options) && Truthy(r.value.explanation)
    ensures q.Null? || q.Undefined? ==> r.Err?
  {
    if q.Null? || q.Undefined? then Err(TypeError)
    else
      var question := Or(Or(Or(Get(q, "question"), Get(q, "text")), Get(q, "prompt")),
                         Str("Question " + NatToString(index + 1)));
      var options := Or(Or(Get(q, "options"), Get(q, "choices")), Arr([]));
      var raw := Or(Or(Or(Get(q, "correctAnswer"), Get(q, "answer")), Get(q, "correct")), Num(0));
      var explanation := Or(Or(Get(q, "explanation"), Get(q, "reason")), Str(NoExplanation));
      match NormaliseAnswer(raw, options)
      case Err(m) => Err(m)
      case Ok(answer) => Ok(Question(index + 1, question, options, answer, explanation))
  }

  function Normaliser(): (Value, nat) -> Result<Question> {
    (q: Value, index: nat) => NormaliseQuestion(q, index)
  }

  /** The questions of a quiz built from parsed data: it must be an array
      (`map` throws otherwise), every entry must normalise, and the result
      must not be empty. */
  function LoadQuestions(data: Value): Result<seq<Question>> {
    if !data.Arr? then Err(TypeError)
    else
      match MapIndexed(Normaliser(), data.items, 0)
      case Err(m) => Err(m)
      case Ok(qs) => if qs == [] then Err(NoQuestions) else Ok(qs)
  }

  /** A quiz loads exactly when the data is a non-empty array whose entries
      all normalise; question `k` then has id `k + 1` and an answer index
      that is 0 or points at one of its options. */
  lemma LoadQuestionsIff(data: Value)
    ensures LoadQuestions(data).Ok? <==>
      data.Arr? && data.items != []
      && forall k :: 0 <= k < |data.items| ==> NormaliseQuestion(data.items[k], k).Ok?
    ensures var r := LoadQuestions(data);
      r.Ok? ==> (|r.value| == |data.items|
        && forall k :: 0 <= k < |r.value| ==>
          r.value[k].id == k + 1 && r.value[k].correctAnswer >= 0
          && (Length(r.value[k].options).Some? ==>
                r.value[k].correctAnswer == 0 || r.value[k].correctAnswer < Length(r.value[k].options).value))
  {
    if data.Arr? {
      var r := MapIndexed(Normaliser(), data.items, 0);
      if r.Ok? {
        forall k | 0 <= k < |r.value|
          ensures r.value[k].id == k + 1 && r.value[k].correctAnswer >= 0
          ensures Length(r.value[k].options).Some? ==>
                r.value[k].correctAnswer == 0 || r.value[k].correctAnswer < Length(r.value[k].options).value
        {
          assert Normaliser()(data.items[k], 0 + k) == Ok(r.value[k]);
          AnswerInRange(data.items[k], k);
        }
      }
    }
  }

  /** The answer index of a normalised question is 0 or a position among its options. */
  lemma AnswerInRange(q: Value, index: nat)
    requires NormaliseQuestion(q, index).Ok?
    ensures var r := NormaliseQuestion(q, index).value;
      Length(r.options).Some? ==> r.correctAnswer == 0 || r.correctAnswer < Length(r.options).value
  {
  }

  /** `Math.ceil(n * 1.5)`, the estimated minutes shown for `n` questions. */
  function EstimatedMinutes(n: nat): (m: nat)
    ensures 2 * m >= 3 * n && 2 * m < 3 * n + 2
  {
    (3 * n + 1) / 2
  }

  // ---------------------------------------------------------------- taking the quiz

  datatype Phase = Home | Taking | Results

  /** A saved quiz carries the server's id and name; the AI quiz has the id
      "ai-generated" and a fixed title. */
  datatype Quiz = Quiz(id: Value, title: Value, questions: seq<Question>)

  const AiId: Value := Str("ai-generated")
  const AiTitle: string := "AI Generated Quiz"
  /** Ten minutes on the countdown. */
  const TimeLimit: int := 600

  datatype Run = Run(phase: Phase, quiz: Option<Quiz>, index: nat, answers: map<nat, int>,
                     timeStarted: Option<int>, timeFinished: Option<int>, timeRemaining: int)

  function Questions(run: Run): seq<Question> {
    if run.quiz.Some? then run.quiz.value.questions else []
  }

  /** The page state when nothing is being taken. */
  const Initial: Run := Run(Home, None, 0, map[], None, None, TimeLimit)

  /** While a quiz is taken it has questions and the current one exists;
      answers are only ever recorded for questions already reached; the
      countdown never goes below zero. */
  predicate Valid(run: Run) {
    (run.phase != Home ==> |Questions(run)| > 0)
    && (run.phase == Taking ==> run.index < |Questions(run)| && run.timeStarted.Some?)
    && (forall k :: k in run.answers ==> k <= run.index)
    && run.timeRemaining >= 0
  }

  /** `startAiQuiz` and `startSavedQuiz` after the questions loaded; the
      finishing time of an earlier attempt is left as it was. */
  function Start(run: Run, quiz: Quiz, now: int): (r: Run)
    ensures r.timeFinished == run.timeFinished
  {
    run.(phase := Taking, quiz := Some(quiz), index := 0, answers := map[], timeStarted := Some(now),
         timeRemaining := TimeLimit)
  }

  /** `selectAnswer(answerIndex)`: records the answer for the current question. */
  function Select(run: Run, answer: int): (r: Run)
    ensures r.answers.Keys == run.answers.Keys + {run.index}
    ensures r.answers[run.index] == answer
    ensures forall k :: k in run.answers && k != run.index ==> r.answers[k] == run.answers[k]
    ensures r.phase == run.phase && r.index == run.index && r.quiz == run.quiz
  {
    run.(answers := run.answers[run.index := answer])
  }

  /** What `nextQuestion` does: move on, or finish and report the score and
      the whole seconds taken. */
  datatype Advance = Moved(run: Run) | Finished(run: Run, score: Score, timeTaken: int)

  function Next(run: Run, now: int): (a: Advance)
    requires Valid(run) && run.phase == Taking
  {
    if run.index + 1 < |Questions(run)| then Moved(run.(index := run.index + 1))
    else
      Finished(run.(phase := Results, timeFinished := Some(now)),
               ScoreOf(Questions(run), run.answers),
               RoundDiv(now - run.timeStarted.GetOr(0), 1000))
  }

  /** `nextQuestion` moves one question on until the last, where it finishes. */
  lemma NextSteps(run: Run, now: int)
    requires Valid(run) && run.phase == Taking
    ensures var a := Next(run, now);
      (a.Moved? <==> run.index < |Questions(run)| - 1)
      && (a.Moved? ==> a.run.index == run.index + 1 && a.run.answers == run.answers)
      && (a.Finished? ==> a.run.phase == Results && a.run.timeFinished == Some(now)
                          && a.score.total == |Questions(run)|)
  {
  }

  /** One second of the countdown, which only runs while a quiz is taken and
      time remains: at one second or less it stops at zero and shows the
      results. */
  function Tick(run: Run, now: int): (r: Run)
    ensures r.answers == run.answers && r.index == run.index && r.quiz == run.quiz
    ensures r != run <==> run.phase == Taking && run.timeRemaining > 0
    ensures r != run ==> r.timeRemaining == (if run.timeRemaining <= 1 then 0 else run.timeRemaining - 1)
    ensures r != run ==> (r.phase == Results <==> r.timeRemaining == 0)
    ensures r.phase == Results && run.phase == Taking ==> r.timeFinished == Some(now)
    ensures Valid(run) ==> Valid(r)
  {
    if run.phase != Taking || run.timeRemaining <= 0 then run
    else if run.timeRemaining <= 1 then run.(timeRemaining := 0, timeFinished := Some(now), phase := Results)
    else run.(timeRemaining := run.timeRemaining - 1)
  }

  function Ticks(run: Run, n: nat, now: int): Run
    decreases n
  {
    if n == 0 then run else Ticks(Tick(run, now), n - 1, now)
  }

  /** With `t` seconds left the quiz is still being taken after fewer than
      `t` ticks, with that many seconds fewer, and the results show after
      exactly `t` ticks. */
  lemma {:induction false} CountdownEnds(run: Run, n: nat, now: int)
    requires run.phase == Taking && 0 < run.timeRemaining && n <= run.timeRemaining
    ensures var r := Ticks(run, n, now);
      (n < run.timeRemaining ==> r.phase == Taking && r.timeRemaining == run.timeRemaining - n)
      && (n == run.timeRemaining ==> r.phase == Results && r.timeRemaining == 0)
      && r.answers == run.answers && r.index == run.index
    decreases n
  {
    if n > 0 && run.timeRemaining > 1 {
      CountdownEnds(Tick(run, now), n - 1, now);
    } else if n > 0 {
      assert Ticks(run, n, now) == Ticks(Tick(run, now), 0, now);
    }
  }

  /** `resetQuiz()`. */
  function Reset(run: Run): (r: Run)
    ensures r == Initial
  {
    Run(Home, None, 0, map[], None, None, TimeLimit)
  }

  /** Starting, answering, moving on, the countdown and resetting keep the state valid. */
  lemma HandlersKeepValid(run: Run, quiz: Quiz, answer: int, now: int)
    requires Valid(run)
    ensures |quiz.questions| > 0 ==> Valid(Start(run, quiz, now))
    ensures run.phase == Taking ==> Valid(Select(run, answer)) && Valid(Next(run, now).run)
    ensures Valid(Tick(run, now)) && Valid(Reset(run))
  {
    if run.phase == Taking {
      var a := Next(run, now);
      assert forall k :: k in a.run.answers ==> k <= a.run.index;
    }
  }

  // ---------------------------------------------------------------- scoring

  /** Question `j` was answered with its correct index (`===`: an unanswered
      question is `undefined` and never correct). */
  predicate Hit(questions: seq<Question>, answers: map<nat, int>, j: nat)
    requires j < |questions|
  {
    j in answers && answers[j] == questions[j].correctAnswer
  }

  /** The number of hits among the first `n` questions. */
  function HitsBelow(questions: seq<Question>, answers: map<nat, int>, n: nat): (c: nat)
    requires n <= |questions|
    ensures c <= n
    decreases n
  {
    if n == 0 then 0
    else HitsBelow(questions, answers, n - 1) + if Hit(questions, answers, n - 1) then 1 else 0
  }

  datatype Score = Score(correct: nat, total: nat, percentage: int)

  function ScoreOf(questions: seq<Question>, answers: map<nat, int>): Score
    requires |questions| > 0
  {
    var c := HitsBelow(questions, answers, |questions|);
    Score(c, |questions|, Percent(c, |questions|))
  }

  /** `calculateScore()`, run as the source's loop over the questions. */
  method CalculateScore(questions: seq<Question>, answers: map<nat, int>) returns (score: Score)
    requires |questions| > 0
    ensures score == ScoreOf(questions, answers)
    ensures score.correct <= score.total == |questions|
    ensures 0 <= score.percentage <= 100
  {
    var correct := 0;
    var i := 0;
    while i < |questions|
      invariant 0 <= i <= |questions|
      invariant correct == HitsBelow(questions, answers, i)
    {
      if i in answers && answers[i] == questions[i].correctAnswer {
        correct := correct + 1;
      }
      i := i + 1;
    }
    PercentBounds(correct, |questions|);
    score := Score(correct, |questions|, Percent(correct, |questions|));
  }

  /** All `n` counted exactly when every one of the first `n` questions was
      answered correctly, and none exactly when none was. */
  lemma {:induction false} HitsIff(questions: seq<Question>, answers: map<nat, int>, n: nat)
    requires n <= |questions|
    ensures HitsBelow(questions, answers, n) == n <==> forall j :: 0 <= j < n ==> Hit(questions, answers, j)
    ensures HitsBelow(questions, answers, n) == 0 <==> forall j :: 0 <= j < n ==> !Hit(questions, answers, j)
    decreases n
  {
    if n > 0 {
      HitsIff(questions, answers, n - 1);
    }
  }

  /** 100% exactly when every question was answered correctly; 0 answers give 0%. */
  lemma PerfectScoreIff(questions: seq<Question>, answers: map<nat, int>)
    requires |questions| > 0
    ensures var s := ScoreOf(questions, answers);
      (s.correct == s.total <==> forall j :: 0 <= j < |questions| ==> Hit(questions, answers, j))
      && (answers == map[] ==> s.correct == 0 && s.percentage == 0)
  {
    HitsIff(questions, answers, |questions|);
    var s := ScoreOf(questions, answers);
    PercentBounds(s.correct, s.total);
  }

  // ---------------------------------------------------------------- session id

  /** A question as it enters the AI quiz's fingerprint: trimmed text, the
      trimmed options in sorted order, and the answer index. */
  datatype Canon = Canon(question: string, options: seq<string>, correctAnswer: int)

  /** The comparison of the default string `sort()`: by UTF-16 code unit. */
  function ByText(): (string, string) -> bool {
    (a: string, b: string) => CodeUnitLess(a, b)
  }

  /** `a.question.localeCompare(b.question) < 0`; `localeLess` is that
      comparison under the browser's collation. */
  function ByQuestion(localeLess: (string, string) -> bool): (Canon, Canon) -> bool {
    (a: Canon, b: Canon) => localeLess(a.question, b.question)
  }

  /** The elements of an array that holds only strings. */
  function Strings(items: seq<Value>): (r: Option<seq<string>>)
    ensures r.Some? ==> (|r.value| == |items|
      && forall k :: 0 <= k < |items| ==> items[k] == Str(r.value[k]))
    ensures r.None? ==> exists k :: 0 <= k < |items| && !items[k].Str?
  {
    if items == [] then Some([])
    else if !items[0].Str? then None
    else
      match Strings(items[1..])
      case None =>
        ghost var k :| 0 <= k < |items[1..]| && !items[1..][k].Str?;
        assert !items[k + 1].Str?;
        None
      case Some(rest) => Some([items[0].s] + rest)
  }

  /** The fingerprint entry of one question; `None` where `trim` or `map`
      would be called on a value that lacks it. */
  function Canonical(q: Question): Option<Canon> {
    if !q.question.Str? || !q.options.Arr? then None
    else
      match Strings(q.options.items)
      case None => None
      case Some(opts) => Some(Canon(JsTrim(q.question.s), Sort(Map(JsTrim, opts), ByText()), q.correctAnswer))
  }

  function CanonicalAll(qs: seq<Question>): (r: Option<seq<Canon>>)
    ensures r.Some? ==> |r.value| == |qs|
  {
    if qs == [] then Some([])
    else
      match (Canonical(qs[0]), CanonicalAll(qs[1..]))
      case (Some(c), Some(rest)) => Some([c] + rest)
      case _ => None
  }

  const AiPrefix: string := "ai-quiz-"

  /** The `study_session_id` of a finished quiz: the saved quiz's id as a
      string, or for the AI quiz "ai-quiz-" followed by the base-36 hash
      (cut to ten characters) of the stringified, sorted fingerprint, or the
      current time when building the fingerprint throws. */
  function SessionId(quiz: Quiz, stringify: seq<Canon> -> string, localeLess: (string, string) -> bool, now: int): string {
    if quiz.id != AiId then ToJsString(quiz.id)
    else
      match CanonicalAll(quiz.questions)
      case Some(cs) => AiPrefix + Prefix(Base36(Hash(stringify(Sort(cs, ByQuestion(localeLess))))), 10)
      case None => AiPrefix + IntToString(now)
  }

  lemma ByTextIsStrictWeak()
    ensures StrictWeakOrder(ByText())
  {
    forall a: string, b: string | CodeUnitLess(a, b) ensures !CodeUnitLess(b, a) {
      CodeUnitLessIsStrictTotal(a, b, a);
    }
    forall a: string, b: string, c: string | !CodeUnitLess(a, b) && !CodeUnitLess(b, c) ensures !CodeUnitLess(a, c) {
      if a != b {
        CodeUnitLessIsStrictTotal(a, b, c);
        CodeUnitLessIsStrictTotal(b, a, c);
      }
    }
  }

  /** Ordering questions by text is a strict weak order whenever the text
      comparison is one. */
  lemma ByQuestionIsStrictWeak(localeLess: (string, string) -> bool)
    requires StrictWeakOrder(localeLess)
    ensures StrictWeakOrder(ByQuestion(localeLess))
  {
    assert forall a: Canon, b: Canon :: ByQuestion(localeLess)(a, b) == localeLess(a.question, b.question);
  }

  /** The order of a question's options never changes its fingerprint. */
  lemma OptionsOrderIrrelevant(a: seq<string>, b: seq<string>)
    requires multiset(a) == multiset(b)
    ensures Sort(a, ByText()) == Sort(b, ByText())
  {
    ByTextIsStrictWeak();
    forall x, y | x in multiset(a) && y in multiset(a) && x != y ensures CodeUnitLess(x, y) || CodeUnitLess(y, x) {
      CodeUnitLessIsStrictTotal(x, y, x);
    }
    SortPermutationInvariant(a, b, ByText());
  }

  /** The AI quiz id depends on the fingerprints only as a collection when
      the text comparison is a strict weak order that orders every two of
      the quiz's question texts: reordering the questions keeps the id. */
  lemma AiIdOrderIndependent(a: seq<Question>, b: seq<Question>, stringify: seq<Canon> -> string,
                             localeLess: (string, string) -> bool, now: int)
    requires StrictWeakOrder(localeLess)
    requires CanonicalAll(a).Some? && CanonicalAll(b).Some?
    requires multiset(CanonicalAll(a).value) == multiset(CanonicalAll(b).value)
    requires var cs := CanonicalAll(a).value;
      forall i, j :: 0 <= i < j < |cs| ==>
        localeLess(cs[i].question, cs[j].question) || localeLess(cs[j].question, cs[i].question)
    ensures SessionId(Quiz(AiId, Str(AiTitle), a), stringify, localeLess, now)
         == SessionId(Quiz(AiId, Str(AiTitle), b), stringify, localeLess, now)
  {
    var ca := CanonicalAll(a).value;
    var cb := CanonicalAll(b).value;
    ByQuestionIsStrictWeak(localeLess);
    OrderedTextsConnected(ca, localeLess);
    SortPermutationInvariant(ca, cb, ByQuestion(localeLess));
  }

  /** Fingerprints whose texts are pairwise ordered are all comparable; a
      strict order never relates a text to itself, so the texts are also
      pairwise different. */
  lemma OrderedTextsConnected(cs: seq<Canon>, localeLess: (string, string) -> bool)
    requires StrictWeakOrder(localeLess)
    requires forall i, j :: 0 <= i < j < |cs| ==>
      localeLess(cs[i].question, cs[j].question) || localeLess(cs[j].question, cs[i].question)
    ensures Connected(multiset(cs), ByQuestion(localeLess))
    ensures forall i, j :: 0 <= i < j < |cs| ==> cs[i].question != cs[j].question
  {
    forall x, y | x in multiset(cs) && y in multiset(cs) && x != y
      ensures localeLess(x.question, y.question) || localeLess(y.question, x.question)
    {
      var i :| 0 <= i < |cs| && cs[i] == x;
      var j :| 0 <= j < |cs| && cs[j] == y;
      if i < j {} else {}
    }
  }

  /** A saved quiz keeps its own id; the AI quiz's id is "ai-quiz-" and the
      hash's full base-36 rendering, which never reaches ten characters, or
      the current time as a fallback. */
  lemma SessionIdShape(quiz: Quiz, stringify: seq<Canon> -> string, localeLess: (string, string) -> bool, now: int)
    ensures quiz.id != AiId ==> SessionId(quiz, stringify, localeLess, now) == ToJsString(quiz.id)
    ensures quiz.id == AiId && CanonicalAll(quiz.questions).Some? ==>
      SessionId(quiz, stringify, localeLess, now)
        == AiPrefix + Base36(Hash(stringify(Sort(CanonicalAll(quiz.questions).value, ByQuestion(localeLess)))))
    ensures quiz.id == AiId && CanonicalAll(quiz.questions).None? ==>
      SessionId(quiz, stringify, localeLess, now) == AiPrefix + IntToString(now)
  {
    if quiz.id == AiId && CanonicalAll(quiz.questions).Some? {
      HashBase36Length(stringify(Sort(CanonicalAll(quiz.questions).value, ByQuestion(localeLess))));
    }
  }

  // ---------------------------------------------------------------- result record

  /** One entry of `detailed_results`. */
  datatype Detail = Detail(questionId: nat, question: Value, userAnswer: int, correctAnswer: int,
                           isCorrect: bool, timeSpent: int)

  function Details(questions: seq<Question>, answers: map<nat, int>, timeTaken: int): (ds: seq<Detail>)
    requires |questions| > 0
    ensures |ds| == |questions|
    ensures forall k :: 0 <= k < |ds| ==>
      ds[k].isCorrect == Hit(questions, answers, k)
      && ds[k].userAnswer == (if k in answers then answers[k] else -1)
  {
    seq(|questions|, k requires 0 <= k < |questions| =>
      Detail(if questions[k].id != 0 then questions[k].id else k + 1,
             Or(questions[k].question, Str("Question not available")),
             if k in answers then answers[k] else -1,
             questions[k].correctAnswer,
             Hit(questions, answers, k),
             RoundDiv(timeTaken, |questions|)))
  }

  /** `payload` of `storeSessionResult(score, timeTaken)`, or `None` when
      nothing is sent: a required field is falsy, or the stored user record
      is `null` and reading its id throws (the `catch` only logs). Every
      question counts as medium difficulty. */
  function ResultPayload(quiz: Quiz, answers: map<nat, int>, score: Score, timeTaken: int,
                         userData: Value, stringify: seq<Canon> -> string, localeLess: (string, string) -> bool, now: int): Option<Payload<Detail>>
    requires |quiz.questions| > 0
  {
    var n := |quiz.questions|;
    var userId := UserIdOf(userData);
    if userId.Err? then None else
    Checked(Payload(SessionId(quiz, stringify, localeLess, now), userId.value,
                    "quiz", quiz.title, n, score.correct, n - score.correct, 0, score.percentage, timeTaken,
                    Breakdown(Tally(0, 0), Tally(HitsBelow(quiz.questions, answers, n), n), Tally(0, 0)),
                    Details(quiz.questions, answers, timeTaken)))
  }

  /** The record is sent exactly when the stored user record is not `null`,
      the quiz id renders non-empty and the quiz has a truthy title; it then
      carries the stored user id (or the default) and agrees with the score: the medium
      tally and the correct count both equal the number of correct details,
      and correct and incorrect answers add up to the question count. */
  lemma PayloadConsistent(quiz: Quiz, answers: map<nat, int>, timeTaken: int,
                          userData: Value, stringify: seq<Canon> -> string, localeLess: (string, string) -> bool, now: int)
    requires |quiz.questions| > 0
    ensures var score := ScoreOf(quiz.questions, answers);
      var r := ResultPayload(quiz, answers, score, timeTaken, userData, stringify, localeLess, now);
      (r.Some? <==> !Nullish(userData) && SessionId(quiz, stringify, localeLess, now) != "" && Truthy(quiz.title))
      && (r.Some? ==>
            r.value.userId == Or(Get(userData, "user_id"), Str(DefaultUserId)) &&
            r.value.correctAnswers == r.value.difficultyBreakdown.medium.correct
            == Count((d: Detail) => d.isCorrect, r.value.detailedResults)
            && r.value.correctAnswers + r.value.incorrectAnswers == r.value.totalQuestions
            && r.value.difficultyBreakdown.medium.total == r.value.totalQuestions == |r.value.detailedResults|
            && 0 <= r.value.accuracyPercentage <= 100)
  {
    var qs := quiz.questions;
    var score := ScoreOf(qs, answers);
    PercentBounds(score.correct, score.total);
    var ds := Details(qs, answers, timeTaken);
    HitsCountDetails(qs, answers, ds, |qs|);
    assert ds[..|qs|] == ds;
  }

  /** The hits among the first `n` questions are the correct details among the first `n`. */
  lemma {:induction false} HitsCountDetails(qs: seq<Question>, answers: map<nat, int>, ds: seq<Detail>, n: nat)
    requires n <= |qs| == |ds|
    requires forall k :: 0 <= k < |ds| ==> ds[k].isCorrect == Hit(qs, answers, k)
    ensures HitsBelow(qs, answers, n) == Count((d: Detail) => d.isCorrect, ds[..n])
    decreases n
  {
    if n > 0 {
      HitsCountDetails(qs, answers, ds, n - 1);
      CountSnoc((d: Detail) => d.isCorrect, ds[..n - 1], ds[n - 1]);
      assert ds[..n] == ds[..n - 1] + [ds[n - 1]];
    }
  }

  lemma {:induction false} CountSnoc<T>(p: T -> bool, s: seq<T>, x: T)
    ensures Count(p, s + [x]) == Count(p, s) + if p(x) then 1 else 0
    decreases |s|
  {
    if s == [] {
      assert s + [x] == [x];
    } else {
      assert (s + [x])[1..] == s[1..] + [x];
      CountSnoc(p, s[1..], x);
    }
  }
}
