/** The study-session result record both dashboard study pages post to the
    session-results endpoint, and the check they make before posting it. */
module SessionRecord {
  import opened Wrappers
  import opened JsValues

  /** `{ correct, total }` for one difficulty. */
  datatype Tally = Tally(correct: nat, total: nat)
  datatype Breakdown = Breakdown(easy: Tally, medium: Tally, hard: Tally)

  /** The posted `payload`; `D` is the page's per-item detail. */
  datatype Payload<D> = Payload(studySessionId: string, userId: Value, sessionType: string, sessionName: Value,
                                totalQuestions: nat, correctAnswers: nat, incorrectAnswers: int,
                                skippedAnswers: nat, accuracyPercentage: int, timeSpentSeconds: int,
                                difficultyBreakdown: Breakdown, detailedResults: seq<D>)

  const DefaultUserId: string := "test-user-frontend"

  /** `userData.user_id || 'test-user-frontend'` for the stored user record
      (`JSON.parse` of the stored text, `{}` when nothing is stored): a
      stored `null` makes the property read throw. */
  function UserIdOf(userData: Value): (id: Result<Value>)
    ensures id.Err? <==> Nullish(userData)
    ensures id.Err? ==> id.message == TypeError
    ensures id.Ok? ==> Truthy(id.value)
    ensures id.Ok? && Truthy(Get(userData, "user_id")) ==> id.value == Get(userData, "user_id")
    ensures id.Ok? && !Truthy(Get(userData, "user_id")) ==> id.value == Str(DefaultUserId)
  {
    if Nullish(userData) then Err(TypeError) else Ok(Or(Get(userData, "user_id"), Str(DefaultUserId)))
  }

  /** The payload is posted only when its id, user and name are all truthy;
      otherwise the page logs the missing fields and posts nothing. */
  function Checked<D>(p: Payload<D>): (r: Option<Payload<D>>)
    ensures r.Some? <==> p.studySessionId != "" && Truthy(p.userId) && Truthy(p.sessionName)
    ensures r.Some? ==> r.value == p
  {
    if p.studySessionId == "" || !Truthy(p.userId) || !Truthy(p.sessionName) then None else Some(p)
  }
}
