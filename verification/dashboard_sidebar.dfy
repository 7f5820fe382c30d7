/** The session search of Frontend/src/components/dashboard/Sidebar.jsx:
    a session is listed when its title, lower-cased, contains the query,
    lower-cased. */
module DashboardSidebar {
  import opened Text
  import opened Sorting

  /** The part of a session the search reads. */
  datatype Session = Session(id: string, title: string)

  function Matches(query: string): Session -> bool {
    (s: Session) => Contains(ToLower(s.title), ToLower(query))
  }

  /** `sessions.filter(...)`. */
  function FilterSessions(sessions: seq<Session>, query: string): seq<Session> {
    Filter(Matches(query), sessions)
  }

  /** The result lists exactly the matching sessions, in their original
      order, and filtering it again with the same query changes nothing. */
  lemma FilterExact(sessions: seq<Session>, query: string)
    ensures var r := FilterSessions(sessions, query);
      (forall i :: 0 <= i < |r| ==> Contains(ToLower(r[i].title), ToLower(query)))
      && (forall i :: 0 <= i < |sessions| && Contains(ToLower(sessions[i].title), ToLower(query))
            ==> sessions[i] in r)
      && IsSubsequence(r, sessions)
      && FilterSessions(r, query) == r
  {
    var r := FilterSessions(sessions, query);
    forall i | 0 <= i < |r| ensures Contains(ToLower(r[i].title), ToLower(query)) {
      assert Matches(query)(r[i]);
    }
    forall i | 0 <= i < |sessions| && Contains(ToLower(sessions[i].title), ToLower(query))
      ensures sessions[i] in r
    {
      assert Matches(query)(sessions[i]);
    }
    FilterSubsequence(Matches(query), sessions);
    FilterIdempotent(Matches(query), sessions);
  }

  /** Every string contains the empty string, so an empty query lists every session. */
  lemma {:induction false} EmptyQueryKeepsAll(sessions: seq<Session>)
    ensures FilterSessions(sessions, "") == sessions
    decreases |sessions|
  {
    if sessions != [] {
      assert StartsWith(ToLower(sessions[0].title)[0..], "");
      assert Matches("")(sessions[0]);
      EmptyQueryKeepsAll(sessions[1..]);
    }
  }

  /** The search ignores ASCII case in both the titles and the query. */
  lemma SearchIgnoresCase(sessions: seq<Session>, query: string)
    ensures FilterSessions(sessions, ToLower(query)) == FilterSessions(sessions, query)
  {
    ToLowerIdempotent(query);
    assert Matches(ToLower(query)) == Matches(query);
  }
}
