/** The flashcards page of the dashboard,
    Frontend/src/components/dashboard/sections/FlashcardsSection.jsx: cards
    built from generated or saved flash-note data, the study session
    (flip, next, previous, rating a card), the rating statistics, and the
    result record posted when the last card is passed. The clock, the
    stored user record, the user's saved flash-notes and the encoding of
    the card content (`btoa(encodeURIComponent(JSON.stringify(…)))`) are
    inputs. */
module DashboardFlashcards {
  import opened Wrappers
  import opened Text
  import opened JsValues
  import opened Sorting
  import opened JsMath
  import opened SessionRecord

  /** A card with the fields the page reads; the constant decorations
      (difficulty "Mixed", tags, review count) are left out. */
  datatype Card = Card(id: string, front: Value, back: Value)

  const AiTitle: string := "AI Generated Flashcards"
  const TestTitle: string := "Test Flashcards"
  const InvalidContent: string := "Invalid flashnotes content structure"

  /** `${prefix}${index + 1}`. */
  function CardId(prefix: string, index: nat): string { prefix + NatToString(index + 1) }

  lemma CardIdInjective(prefix: string, i: nat, j: nat)
    requires CardId(prefix, i) == CardId(prefix, j)
    ensures i == j
  {
    var a, b := NatToString(i + 1), NatToString(j + 1);
    assert a == CardId(prefix, i)[|prefix|..];
    assert b == CardId(prefix, j)[|prefix|..];
    NatToBaseInjective(i + 1, j + 1, 10);
  }

  /** A card from `{front, back}`; reading a field of null throws. */
  function FromCard(prefix: string): (Value, nat) -> Result<Card> {
    (card: Value, index: nat) =>
      if card.Null? || card.Undefined? then Err(TypeError)
      else Ok(Card(CardId(prefix, index), Get(card, "front"), Get(card, "back")))
  }

  /** A card from a legacy `{note}` entry, titled "Study Note k". */
  function FromNote(): (Value, nat) -> Result<Card> {
    (note: Value, index: nat) =>
      if note.Null? || note.Undefined? then Err(TypeError)
      else Ok(Card(CardId("ai-", index), Str("Study Note " + NatToString(index + 1)), Get(note, "note")))
  }

  /** Mapping an array with `f`; any other value has no `map` and throws. */
  function MapArray(f: (Value, nat) -> Result<Card>, v: Value): Result<seq<Card>> {
    if v.Arr? then MapIndexed(f, v.items, 0) else Err(TypeError)
  }

  /** The cards of pending generated data: its `flashcards` when truthy,
      else its legacy `notes` when truthy, else none. */
  function AiCards(data: Value): Result<seq<Card>> {
    if data.Null? || data.Undefined? then Err(TypeError)
    else if Truthy(Get(data, "flashcards")) then MapArray(FromCard("ai-"), Get(data, "flashcards"))
    else if Truthy(Get(data, "notes")) then MapArray(FromNote(), Get(data, "notes"))
    else Ok([])
  }

  /** The cards of a saved flash-note: only a truthy content whose
      `flashcards` is an array is accepted. */
  function SavedCards(content: Value): Result<seq<Card>> {
    if !Truthy(content) || !Truthy(Get(content, "flashcards")) || !Get(content, "flashcards").Arr? then
      Err(InvalidContent)
    else MapArray(FromCard("saved-"), Get(content, "flashcards"))
  }

  predicate DistinctIds(cards: seq<Card>) {
    forall i, j :: 0 <= i < j < |cards| ==> cards[i].id != cards[j].id
  }

  function Ids(cards: seq<Card>): set<string> {
    set i | 0 <= i < |cards| :: cards[i].id
  }

  /** Cards mapped with numbered ids have pairwise different ids. */
  lemma MappedIdsDistinct(f: (Value, nat) -> Result<Card>, prefix: string, v: Value)
    requires forall x: Value, k: nat :: f(x, k).Ok? ==> f(x, k).value.id == CardId(prefix, k)
    requires MapArray(f, v).Ok?
    ensures DistinctIds(MapArray(f, v).value)
  {
    var cards := MapArray(f, v).value;
    forall i, j | 0 <= i < j < |cards| ensures cards[i].id != cards[j].id {
      assert f(v.items[i], 0 + i) == Ok(cards[i]);
      assert f(v.items[j], 0 + j) == Ok(cards[j]);
      if cards[i].id == cards[j].id {
        CardIdInjective(prefix, i, j);
      }
    }
  }

  /** Loaded cards keep the entries' order and never share an id; for the
      `flashcards` shape each card carries its entry's `front` and `back`. */
  lemma LoadedCardsShape(data: Value, content: Value)
    ensures AiCards(data).Ok? ==> DistinctIds(AiCards(data).value)
    ensures SavedCards(content).Ok? ==> DistinctIds(SavedCards(content).value)
    ensures var fc := Get(content, "flashcards");
      SavedCards(content).Ok? ==>
        (|SavedCards(content).value| == |fc.items|
        && forall k :: 0 <= k < |fc.items| ==>
          SavedCards(content).value[k] == Card(CardId("saved-", k), Get(fc.items[k], "front"), Get(fc.items[k], "back")))
  {
    if AiCards(data).Ok? {
      if Truthy(Get(data, "flashcards")) {
        MappedIdsDistinct(FromCard("ai-"), "ai-", Get(data, "flashcards"));
      } else if Truthy(Get(data, "notes")) {
        MappedIdsDistinct(FromNote(), "ai-", Get(data, "notes"));
      }
    }
    if SavedCards(content).Ok? {
      var fc := Get(content, "flashcards");
      MappedIdsDistinct(FromCard("saved-"), "saved-", fc);
      forall k | 0 <= k < |fc.items|
        ensures SavedCards(content).value[k] == Card(CardId("saved-", k), Get(fc.items[k], "front"), Get(fc.items[k], "back"))
      {
        assert FromCard("saved-")(fc.items[k], 0 + k) == Ok(SavedCards(content).value[k]);
      }
    }
  }

  // ---------------------------------------------------------------- studying

  datatype Rating = Easy | Medium | Hard

  datatype Study = Study(studying: bool, cards: seq<Card>, index: nat, flipped: bool, title: string,
                         complete: bool, ratings: map<string, Rating>, startTime: Option<int>)

  /** Cards never share an id, ratings belong to cards of the deck, and the
      current position is a card (or 0 for an empty deck). */
  predicate Valid(s: Study) {
    DistinctIds(s.cards) && s.ratings.Keys <= Ids(s.cards) && (s.index < |s.cards| || s.index == 0)
  }

  /** `startAiFlashcards()`: only a non-empty generated deck starts. */
  function StartAi(s: Study, cards: seq<Card>, now: int): Study {
    if |cards| > 0 then Study(true, cards, 0, false, AiTitle, false, map[], Some(now)) else s
  }

  /** `startSavedFlashnotes()` once the cards loaded. */
  function StartSaved(cards: seq<Card>, name: string, now: int): Study {
    Study(true, cards, 0, false, name, false, map[], Some(now))
  }

  const TestCards: seq<Card> := [Card("test-1", Str("Test Question 1"), Str("Test Answer 1")),
                                 Card("test-2", Str("Test Question 2"), Str("Test Answer 2"))]

  /** `startTestSession()`: it does not reset the start time. */
  function StartTest(s: Study): Study {
    Study(true, TestCards, 0, false, TestTitle, false, map[], s.startTime)
  }

  function Flip(s: Study): Study { s.(flipped := !s.flipped) }

  function Previous(s: Study): Study {
    if s.index > 0 then s.(index := s.index - 1, flipped := false) else s
  }

  /** A step's new state and, when it completes the session, the ratings
      the posted record is computed from. */
  datatype Outcome = Outcome(study: Study, recorded: Option<map<string, Rating>>)

  /** `nextCard()`: the next card face up, or on the last card the record
      is posted (from the ratings this handler sees) and the session completes. */
  function NextCard(s: Study): (o: Outcome)
    ensures o.recorded.Some? <==> s.index + 1 >= |s.cards|
    ensures o.recorded.Some? ==> o.recorded.value == s.ratings && o.study.complete
    ensures o.recorded.None? ==> o.study.index == s.index + 1 && !o.study.flipped
    ensures o.study.cards == s.cards && o.study.ratings == s.ratings
    ensures Valid(s) ==> Valid(o.study)
  {
    if s.index + 1 < |s.cards| then Outcome(s.(index := s.index + 1, flipped := false), None)
    else Outcome(s.(complete := true), Some(s.ratings))
  }

  /** The rating map after rating the current card. */
  function Rated(s: Study, rating: Rating): map<string, Rating>
    requires s.index < |s.cards|
  {
    s.ratings[s.cards[s.index].id := rating]
  }

  /** `markCard(difficulty)` as written: the rating is stored through a
      state update, but `nextCard()` runs in the same handler and still sees
      the ratings from before, so on the last card the posted record misses
      the rating just given. */
  function MarkAsWritten(s: Study, rating: Rating): Outcome
    requires s.index < |s.cards|
  {
    var o := NextCard(s);
    Outcome(o.study.(ratings := Rated(s, rating)), o.recorded)
  }

  /** `markCard(difficulty)` as intended: the record includes the rating just given. */
  function Mark(s: Study, rating: Rating): Outcome
    requires s.index < |s.cards|
  {
    NextCard(s.(ratings := Rated(s, rating)))
  }

  /** Both versions reach the same page state; only the posted record
      differs, and the intended one is always computed from the ratings the
      completion screen shows. */
  lemma MarkVersionsAgree(s: Study, rating: Rating)
    requires s.index < |s.cards|
    ensures MarkAsWritten(s, rating).study == Mark(s, rating).study
    ensures Mark(s, rating).recorded.Some? ==> Mark(s, rating).recorded.value == Mark(s, rating).study.ratings
    ensures Mark(s, rating).recorded.Some? <==> MarkAsWritten(s, rating).recorded.Some?
  {
  }

  /** Rating the only card of a fresh one-card session as easy: the page
      shows one correct card, but the record as written counts none. */
  lemma LastRatingLost(c: Card, now: int)
    ensures var s := StartSaved([c], "Deck", now);
      var written := MarkAsWritten(s, Easy);
      written.recorded == Some(map[])
      && StatsOf(s.cards, written.recorded.value).correct == 0
      && StatsOf(s.cards, written.study.ratings).correct == 1
      && Mark(s, Easy).recorded == Some(map[c.id := Easy])
  {
    var s := StartSaved([c], "Deck", now);
    var m := map[c.id := Easy];
    assert RatedWith(m, Easy) == {c.id};
    assert RatedWith(m, Medium) == {};
    assert RatedWith(map[], Easy) == {} && RatedWith(map[], Medium) == {};
  }

  /** `resetSession()`. */
  function Reset(): Study {
    Study(false, [], 0, false, "", false, map[], None)
  }

  /** Starting a deck with distinct ids, or the test deck, and resetting
      give a valid state. */
  lemma StartsValid(s: Study, cards: seq<Card>, name: string, now: int)
    requires Valid(s) && DistinctIds(cards)
    ensures Valid(StartAi(s, cards, now)) && Valid(StartSaved(cards, name, now))
    ensures Valid(StartTest(s)) && Valid(Reset())
  {
  }

  /** Flipping, moving and rating keep the state valid. */
  lemma StepsKeepValid(s: Study, rating: Rating)
    requires Valid(s)
    ensures Valid(Flip(s)) && Valid(Previous(s)) && Valid(NextCard(s).study)
    ensures s.index < |s.cards| ==> Valid(Mark(s, rating).study)
  {
    if s.index < |s.cards| {
      assert s.cards[s.index].id in Ids(s.cards);
    }
  }

  /** The progress shown on a card, `Math.round(((index + 1) / cards.length) * 100)`:
      above 0, and 100 exactly on the last card. */
  lemma ProgressBounds(s: Study)
    requires s.index < |s.cards|
    ensures 0 <= Percent(s.index + 1, |s.cards|) <= 100
    ensures Percent(s.index + 1, |s.cards|) == 100 <== s.index == |s.cards| - 1
  {
    PercentBounds(s.index + 1, |s.cards|);
  }

  // ---------------------------------------------------------------- statistics

  /** The ids rated with `r` (`Object.values(cardRatings).filter(…)`). */
  function RatedWith(ratings: map<string, Rating>, r: Rating): set<string> {
    set id | id in ratings && ratings[id] == r
  }

  datatype Stats = Stats(easy: nat, medium: nat, hard: nat, correct: nat, incorrect: nat, skipped: nat,
                         accuracy: int)

  /** `!cardRatings[card.id]`. */
  function Unrated(ratings: map<string, Rating>): Card -> bool {
    (c: Card) => c.id !in ratings
  }

  /** The card's id is one of `keys`. */
  function IdIn(keys: set<string>): Card -> bool {
    (c: Card) => c.id in keys
  }

  /** The session statistics: easy and medium count as correct, hard as
      incorrect, and unrated cards as skipped. */
  function StatsOf(cards: seq<Card>, ratings: map<string, Rating>): Stats {
    var e, m, h := |RatedWith(ratings, Easy)|, |RatedWith(ratings, Medium)|, |RatedWith(ratings, Hard)|;
    var skipped := Count(Unrated(ratings), cards);
    Stats(e, m, h, e + m, h, skipped, if |cards| > 0 then Percent(e + m, |cards|) else 0)
  }

  /** With ratings for cards of the deck only, every card is counted exactly
      once as correct, incorrect or skipped, and the accuracy is a
      percentage, 100 exactly when every card was rated easy or medium. */
  lemma StatsAddUp(cards: seq<Card>, ratings: map<string, Rating>)
    requires DistinctIds(cards) && ratings.Keys <= Ids(cards)
    ensures var st := StatsOf(cards, ratings);
      st.correct + st.incorrect + st.skipped == |cards|
      && 0 <= st.accuracy <= 100
      && (|cards| > 0 && st.correct == |cards| ==> st.accuracy == 100)
      && (st.skipped == 0 <==> Ids(cards) <= ratings.Keys)
  {
    StatsSum(cards, ratings);
    var st := StatsOf(cards, ratings);
    if |cards| > 0 {
      PercentBounds(st.correct, |cards|);
    }
    SkippedNoneIff(cards, ratings);
  }

  lemma StatsSum(cards: seq<Card>, ratings: map<string, Rating>)
    requires DistinctIds(cards) && ratings.Keys <= Ids(cards)
    ensures |RatedWith(ratings, Easy)| + |RatedWith(ratings, Medium)| + |RatedWith(ratings, Hard)|
            + Count(Unrated(ratings), cards) == |cards|
  {
    PartitionCard(ratings);
    CountIn(cards, ratings.Keys);
    CountComplement(IdIn(ratings.Keys), Unrated(ratings), cards);
  }

  /** The three rating classes split the rated ids. */
  lemma PartitionCard(ratings: map<string, Rating>)
    ensures |RatedWith(ratings, Easy)| + |RatedWith(ratings, Medium)| + |RatedWith(ratings, Hard)| == |ratings.Keys|
  {
    var e, m, h := RatedWith(ratings, Easy), RatedWith(ratings, Medium), RatedWith(ratings, Hard);
    assert ratings.Keys == e + m + h;
    assert e * m == {} && (e + m) * h == {};
  }

  /** Cards with ids in a set of the deck's ids number as many as the set. */
  lemma {:induction false} CountIn(cards: seq<Card>, keys: set<string>)
    requires DistinctIds(cards) && keys <= Ids(cards)
    ensures Count(IdIn(keys), cards) == |keys|
    decreases |cards|
  {
    if cards == [] {
      assert keys == {};
    } else {
      var h := cards[0].id;
      var tail := cards[1..];
      var rest := keys - {h};
      assert DistinctIds(tail);
      assert h !in Ids(tail);
      assert rest <= Ids(tail) by {
        forall x | x in rest ensures x in Ids(tail) {
          var i :| 0 <= i < |cards| && cards[i].id == x;
          assert i != 0;
          assert tail[i - 1] == cards[i];
        }
      }
      CountIn(tail, rest);
      CountMatch(IdIn(keys), tail, IdIn(rest), tail);
    }
  }

  /** No card is skipped exactly when every card was rated. */
  lemma SkippedNoneIff(cards: seq<Card>, ratings: map<string, Rating>)
    ensures Count(Unrated(ratings), cards) == 0 <==> Ids(cards) <= ratings.Keys
  {
    var p := Unrated(ratings);
    FilterNonEmptyIff(p, cards);
    if Ids(cards) <= ratings.Keys {
      forall i | 0 <= i < |cards| ensures !p(cards[i]) {
        assert cards[i].id in Ids(cards);
      }
    }
  }

  // ---------------------------------------------------------------- result record

  /** `replace(/\s+/g, '-')`: each run of whitespace becomes one dash. */
  function DashRuns(s: string): (r: string)
    ensures forall k :: 0 <= k < |r| ==> !IsJsSpace(r[k])
    ensures |r| <= |s|
    ensures (forall k :: 0 <= k < |s| ==> !IsJsSpace(s[k])) ==> r == s
    decreases |s|
  {
    if s == [] then []
    else if IsJsSpace(s[0]) then "-" + DashRuns(TrimStart(s[1..], IsJsSpace))
    else [s[0]] + DashRuns(s[1..])
  }

  /** The first saved flash-note with the given name; reading the name of a
      null entry throws. */
  function FindByName(notes: seq<Value>, name: string): Result<Option<Value>> {
    if notes == [] then Ok(None)
    else if notes[0].Null? || notes[0].Undefined? then Err(TypeError)
    else if Get(notes[0], "name") == Str(name) then Ok(Some(notes[0]))
    else FindByName(notes[1..], name)
  }

  /** The `study_session_id`: for generated and test decks the first ten
      characters of the encoded content and the start time (or now); for a
      saved deck the id of the saved flash-note with the same name, or a
      slug of the title. */
  function SessionId(s: Study, notes: seq<Value>, encode: seq<Card> -> string, now: int): Result<string> {
    if s.title == AiTitle || s.title == TestTitle then
      var stamp := if s.startTime.Some? && s.startTime.value != 0 then s.startTime.value else now;
      Ok("ai-flashcards-" + Prefix(encode(s.cards), 10) + "-" + IntToString(stamp))
    else
      match FindByName(notes, s.title)
      case Err(m) => Err(m)
      case Ok(found) =>
        if found.Some? then Ok(ToJsString(Get(found.value, "id")))
        else Ok("saved-flashcards-" + ToLower(DashRuns(s.title)))
  }

  /** A saved deck without a same-named flash-note gets a slug with no
      whitespace; a generated deck's id carries its start time. */
  lemma SessionIdShape(s: Study, notes: seq<Value>, encode: seq<Card> -> string, now: int)
    ensures s.title == AiTitle && s.startTime.Some? && s.startTime.value != 0 ==>
      SessionId(s, notes, encode, now)
        == Ok("ai-flashcards-" + Prefix(encode(s.cards), 10) + "-" + IntToString(s.startTime.value))
    ensures s.title != AiTitle && s.title != TestTitle && FindByName(notes, s.title) == Ok(None) ==>
      var id := SessionId(s, notes, encode, now);
      id.Ok? && StartsWith(id.value, "saved-flashcards-")
      && (forall k :: 0 <= k < |id.value| ==> !IsJsSpace(id.value[k]))
  {
    if s.title != AiTitle && s.title != TestTitle && FindByName(notes, s.title) == Ok(None) {
      SlugHasNoSpace(s.title);
    }
  }

  /** The slug of a saved deck's title holds no whitespace. */
  lemma SlugHasNoSpace(title: string)
    ensures var id := "saved-flashcards-" + ToLower(DashRuns(title));
      StartsWith(id, "saved-flashcards-") && forall k :: 0 <= k < |id| ==> !IsJsSpace(id[k])
  {
    var dashed := DashRuns(title);
    var slug := ToLower(dashed);
    forall k | 0 <= k < |slug| ensures !IsJsSpace(slug[k]) {
      assert slug[k] == LowerChar(dashed[k]);
    }
    var id := "saved-flashcards-" + slug;
    forall k | 0 <= k < |id| ensures !IsJsSpace(id[k]) {
      if k >= 17 { assert id[k] == slug[k - 17]; }
    }
    assert id[..17] == "saved-flashcards-";
  }

  /** One entry of `detailed_results`. */
  datatype Detail = Detail(cardId: Value, front: Value, back: Value, rating: string, isCorrect: bool,
                           difficulty: string)

  function RatingName(r: Rating): string {
    match r
    case Easy => "easy"
    case Medium => "medium"
    case Hard => "hard"
  }

  function DetailOf(card: Card, index: nat, ratings: map<string, Rating>): (d: Detail)
    ensures d.isCorrect <==> card.id in ratings && ratings[card.id] != Hard
  {
    var rated := card.id in ratings;
    Detail(if card.id != "" then Str(card.id) else Num(index), card.front, card.back,
           if rated then RatingName(ratings[card.id]) else "skipped",
           rated && ratings[card.id] != Hard,
           if rated then RatingName(ratings[card.id]) else "unrated")
  }

  /** The record for a computed id, before the required-field check. */
  function PayloadOf(id: string, s: Study, ratings: map<string, Rating>, userId: Value, now: int): Payload<Detail> {
    var st := StatsOf(s.cards, ratings);
    var spent := if s.startTime.Some? && s.startTime.value != 0 then RoundDiv(now - s.startTime.value, 1000) else 0;
    Payload(id, userId, "flashnotes", Str(s.title), |s.cards|,
            st.correct, st.incorrect, st.skipped, st.accuracy, spent,
            Breakdown(Tally(st.easy, st.easy), Tally(st.medium, st.medium), Tally(0, st.hard)),
            DetailsOf(s.cards, ratings))
  }

  function DetailsOf(cards: seq<Card>, ratings: map<string, Rating>): (ds: seq<Detail>)
    ensures |ds| == |cards|
    ensures forall k :: 0 <= k < |cards| ==> ds[k] == DetailOf(cards[k], k, ratings)
  {
    seq(|cards|, k requires 0 <= k < |cards| => DetailOf(cards[k], k, ratings))
  }

  /** `r.isCorrect`. */
  function Correct(): Detail -> bool {
    (d: Detail) => d.isCorrect
  }

  /** The details marked correct are the cards rated easy or medium. */
  lemma CorrectDetails(cards: seq<Card>, ratings: map<string, Rating>)
    requires DistinctIds(cards) && ratings.Keys <= Ids(cards)
    ensures Count(Correct(), DetailsOf(cards, ratings))
            == |RatedWith(ratings, Easy)| + |RatedWith(ratings, Medium)|
  {
    var good := RatedWith(ratings, Easy) + RatedWith(ratings, Medium);
    GoodRatings(ratings);
    CountIn(cards, good);
    CorrectMatches(cards, ratings, good);
  }

  /** The easy and medium ids are disjoint, both rated. */
  lemma GoodRatings(ratings: map<string, Rating>)
    ensures var good := RatedWith(ratings, Easy) + RatedWith(ratings, Medium);
      good <= ratings.Keys && |good| == |RatedWith(ratings, Easy)| + |RatedWith(ratings, Medium)|
      && forall id :: id in good <==> id in ratings && ratings[id] != Hard
  {
    assert RatedWith(ratings, Easy) * RatedWith(ratings, Medium) == {};
  }

  /** A detail is correct exactly when its card's id is among `good`. */
  lemma CorrectMatches(cards: seq<Card>, ratings: map<string, Rating>, good: set<string>)
    requires forall id :: id in good <==> id in ratings && ratings[id] != Hard
    ensures Count(Correct(), DetailsOf(cards, ratings)) == Count(IdIn(good), cards)
  {
    var ds := DetailsOf(cards, ratings);
    forall k | 0 <= k < |cards| ensures Correct()(ds[k]) == IdIn(good)(cards[k]) {
    }
    CountMatch(Correct(), ds, IdIn(good), cards);
  }

  /** `payload` of `storeFlashcardSessionResult()` for the ratings it sees:
      `Ok(None)` when a required field is falsy, `Err` when reading the id
      of a `null` user record or looking up the saved flash-note throws. */
  function ResultPayload(s: Study, ratings: map<string, Rating>, notes: seq<Value>, encode: seq<Card> -> string,
                         userData: Value, now: int): Result<Option<Payload<Detail>>> {
    var userId := UserIdOf(userData);
    if userId.Err? then Err(userId.message)
    else match SessionId(s, notes, encode, now)
      case Err(m) => Err(m)
      case Ok(id) => Ok(Checked(PayloadOf(id, s, ratings, userId.value, now)))
  }

  /** Nothing is posted when the stored user record is `null`; otherwise
      the record is posted exactly when the id is computed, is non-empty
      and the deck has a title, and it carries the stored user id or the
      default one. */
  lemma PostedIff(s: Study, ratings: map<string, Rating>, notes: seq<Value>, encode: seq<Card> -> string,
                  userData: Value, now: int)
    ensures var r := ResultPayload(s, ratings, notes, encode, userData, now);
      var id := SessionId(s, notes, encode, now);
      (r.Ok? <==> !Nullish(userData) && id.Ok?)
      && (r.Ok? ==> (r.value.Some? <==> id.value != "" && s.title != ""))
      && (r.Ok? && r.value.Some? ==>
            r.value.value == PayloadOf(id.value, s, ratings, Or(Get(userData, "user_id"), Str(DefaultUserId)), now))
  {
  }

  /** The record agrees with itself: the correct answers are the details
      marked correct, and correct, incorrect and skipped add up to the
      number of cards. */
  lemma PayloadConsistent(id: string, s: Study, ratings: map<string, Rating>, userId: Value, now: int)
    requires DistinctIds(s.cards) && ratings.Keys <= Ids(s.cards)
    ensures var p := PayloadOf(id, s, ratings, userId, now);
      p.correctAnswers == Count(Correct(), p.detailedResults)
      && p.correctAnswers + p.incorrectAnswers + p.skippedAnswers == p.totalQuestions
      && p.difficultyBreakdown.easy.total + p.difficultyBreakdown.medium.total
         + p.difficultyBreakdown.hard.total + p.skippedAnswers == p.totalQuestions
  {
    StatsSum(s.cards, ratings);
    CorrectDetails(s.cards, ratings);
  }
}
