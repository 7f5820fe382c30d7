/** The page heading and the menu flags of
    Frontend/src/components/dashboard/Header.jsx. */
module DashboardHeader {
  import opened Text

  /** The sections the heading can name, in the order the path is tested. */
  datatype Section = Chat | Quiz | Flashcards | SettingsPage | ProfilePage | Home

  /** The path fragment that selects each section; `Home` has none. */
  function Fragment(s: Section): string {
    match s
    case Chat => "/chat"
    case Quiz => "/quiz"
    case Flashcards => "/flashcards"
    case SettingsPage => "/settings"
    case ProfilePage => "/profile"
    case Home => ""
  }

  /** `getPageTitle()`. */
  function PageTitle(path: string): string {
    if Contains(path, "/chat") then "AI Chat Assistant"
    else if Contains(path, "/quiz") then "Smart Quizzes"
    else if Contains(path, "/flashcards") then "Flashcards"
    else if Contains(path, "/settings") then "Settings"
    else if Contains(path, "/profile") then "Profile"
    else "Dashboard"
  }

  /** `getPageDescription()`. */
  function PageDescription(path: string): string {
    if Contains(path, "/chat") then "Have conversations with AI about your study materials"
    else if Contains(path, "/quiz") then "Test your knowledge with adaptive questions"
    else if Contains(path, "/flashcards") then "Study and memorize key concepts"
    else if Contains(path, "/settings") then "Customize your learning experience"
    else if Contains(path, "/profile") then "Manage your account and preferences"
    else "Your AI-powered study companion"
  }

  /** The sections with a fragment, in the order the path is tested. */
  const TestOrder: seq<Section> := [Chat, Quiz, Flashcards, SettingsPage, ProfilePage]

  /** The position in `order` of the first section whose fragment occurs
      in the path, or `|order|` when none does. */
  function FirstMatch(path: string, order: seq<Section>): (k: nat)
    ensures k <= |order|
    ensures k < |order| ==> Contains(path, Fragment(order[k]))
    ensures forall j :: 0 <= j < k ==> !Contains(path, Fragment(order[j]))
    decreases |order|
  {
    if order == [] || Contains(path, Fragment(order[0])) then 0
    else
      var k := FirstMatch(path, order[1..]);
      assert forall j :: 1 <= j <= k ==> order[j] == order[1..][j - 1];
      1 + k
  }

  /** Each section with a fragment sits in the testing order at its rank. */
  lemma OrderByRank(t: Section)
    requires t != Home
    ensures Rank(t) < |TestOrder| && TestOrder[Rank(t)] == t
  {
  }

  /** The reference reading: the section of least rank whose fragment
      occurs in the path, and `Home` when none does. */
  function SectionOf(path: string): (s: Section)
    ensures s != Home ==>
      (Contains(path, Fragment(s)) && forall t :: Rank(t) < Rank(s) ==> !Contains(path, Fragment(t)))
    ensures s == Home <==>
      forall t :: t != Home ==> !Contains(path, Fragment(t))
  {
    var k := FirstMatch(path, TestOrder);
    if k < |TestOrder| then
      assert Rank(TestOrder[k]) == k;
      forall t | Rank(t) < k ensures !Contains(path, Fragment(t)) {
        OrderByRank(t);
      }
      TestOrder[k]
    else
      forall t | t != Home ensures !Contains(path, Fragment(t)) {
        OrderByRank(t);
      }
      Home
  }

  function TitleOf(s: Section): string {
    match s
    case Chat => "AI Chat Assistant"
    case Quiz => "Smart Quizzes"
    case Flashcards => "Flashcards"
    case SettingsPage => "Settings"
    case ProfilePage => "Profile"
    case Home => "Dashboard"
  }

  function DescriptionOf(s: Section): string {
    match s
    case Chat => "Have conversations with AI about your study materials"
    case Quiz => "Test your knowledge with adaptive questions"
    case Flashcards => "Study and memorize key concepts"
    case SettingsPage => "Customize your learning experience"
    case ProfilePage => "Manage your account and preferences"
    case Home => "Your AI-powered study companion"
  }

  /** The title and the description always name the same section: the one
      the path selects. */
  lemma HeadingAgrees(path: string)
    ensures PageTitle(path) == TitleOf(SectionOf(path))
    ensures PageDescription(path) == DescriptionOf(SectionOf(path))
  {
    var s := SectionOf(path);
    var chat, quiz, cards := Contains(path, "/chat"), Contains(path, "/quiz"), Contains(path, "/flashcards");
    var settings, profile := Contains(path, "/settings"), Contains(path, "/profile");
    assert Fragment(Chat) == "/chat" && Fragment(Quiz) == "/quiz" && Fragment(Flashcards) == "/flashcards";
    assert Fragment(SettingsPage) == "/settings" && Fragment(ProfilePage) == "/profile";
    match s
    case Chat => assert chat;
    case Quiz => assert !chat && quiz;
    case Flashcards => assert !chat && !quiz && cards;
    case SettingsPage => assert !chat && !quiz && !cards && settings;
    case ProfilePage => assert !chat && !quiz && !cards && !settings && profile;
    case Home => assert !chat && !quiz && !cards && !settings && !profile;
  }

  /** The first match wins: a path mentioning "/chat" is the chat page
      whatever else it mentions, and a section is chosen only when no earlier
      one matches. */
  lemma FirstMatchWins(path: string, s: Section)
    requires s != Home && Contains(path, Fragment(s))
    ensures SectionOf(path) != Home
    ensures SectionOf(path) == s || Rank(SectionOf(path)) < Rank(s)
  {
  }

  function Rank(s: Section): nat {
    match s
    case Chat => 0
    case Quiz => 1
    case Flashcards => 2
    case SettingsPage => 3
    case ProfilePage => 4
    case Home => 5
  }

  // ---------------------------------------------------------------- menus

  /** The two drop-down flags. */
  datatype Menus = Menus(userMenuOpen: bool, notificationMenuOpen: bool)

  /** The click-away overlay is rendered while either menu is open. */
  predicate OverlayShown(m: Menus) { m.userMenuOpen || m.notificationMenuOpen }

  /** A click on the overlay. */
  function OverlayClick(m: Menus): (r: Menus)
    requires OverlayShown(m)
  {
    Menus(false, false)
  }

  /** The bell button. */
  function ToggleNotifications(m: Menus): Menus {
    m.(notificationMenuOpen := !m.notificationMenuOpen)
  }

  /** An overlay click closes both menus and so removes the overlay itself;
      opening the notifications always brings the overlay up. */
  lemma OverlayClosesBoth(m: Menus)
    ensures OverlayShown(m) ==> !OverlayShown(OverlayClick(m))
    ensures !m.notificationMenuOpen ==> OverlayShown(ToggleNotifications(m))
    ensures ToggleNotifications(ToggleNotifications(m)) == m
  {
  }

  /** The red dot on the bell is shown when there are notifications. */
  function ShowsDot<T>(notifications: seq<T>): (shown: bool)
    ensures shown <==> notifications != []
  {
    |notifications| > 0
  }
}
