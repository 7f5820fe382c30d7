/** Avatar choice: `generateAvatarUrl` and `getUserAvatar` of
    Frontend/src/utils/avatarUtils.js, and the initials fallback of
    Frontend/src/components/common/Avatar.jsx. `Math.random` is an input:
    the random style index and seed text of `generateRandomAvatarUrl`. */
module Avatar {
  import opened Wrappers
  import opened Text
  import opened StringHash

  const Styles: seq<string> := ["adventurer", "avataaars", "big-smile", "croodles", "fun-emoji",
                                "lorelei", "micah", "open-peeps", "personas", "pixel-art"]

  const UrlBase: string := "https://api.dicebear.com/7.x/"
  const UrlQuery: string := "&size=150&backgroundColor=b6e3f4,c0aede,d1d4f9,ffd5dc,ffdfbf"

  function StyleUrl(style: string, seed: string): string {
    UrlBase + style + "/svg?seed=" + seed + UrlQuery
  }

  /** The hash of the lower-cased username followed by the lower-cased e-mail. */
  function Seed(username: string, email: string): nat {
    Hash(ToLower(username) + ToLower(email))
  }

  function StyleIndex(seed: nat): (i: nat)
    ensures i < |Styles|
  {
    seed % |Styles|
  }

  /** `Math.abs(seed).toString(36).substring(0, 8)`. */
  function ShortSeed(seed: nat): string { Prefix(Base36(seed), 8) }

  function GenerateAvatarUrl(username: string, email: string): string {
    var seed := Seed(username, email);
    StyleUrl(Styles[StyleIndex(seed)], ShortSeed(seed))
  }

  /** The URL depends on the names only through their lower-case forms. */
  lemma AvatarUrlIgnoresCase(username: string, email: string)
    ensures GenerateAvatarUrl(ToLower(username), ToLower(email)) == GenerateAvatarUrl(username, email)
  {
    ToLowerIdempotent(username);
    ToLowerIdempotent(email);
  }

  /** The URL names one of the ten styles and carries the seed's whole
      base-36 rendering: it never has more than six digits, so the cut to
      eight characters removes nothing. */
  lemma AvatarUrlParts(username: string, email: string)
    ensures var seed := Seed(username, email);
      exists k :: 0 <= k < |Styles| && GenerateAvatarUrl(username, email) == StyleUrl(Styles[k], Base36(seed))
  {
    var seed := Seed(username, email);
    HashBase36Length(ToLower(username) + ToLower(email));
    assert ShortSeed(seed) == Base36(seed);
    var k := StyleIndex(seed);
    assert GenerateAvatarUrl(username, email) == StyleUrl(Styles[k], Base36(seed));
  }

  /** `generateRandomAvatarUrl()` for the random style index and seed text drawn. */
  function RandomAvatarUrl(styleIndex: nat, randomSeed: string): string
    requires styleIndex < |Styles|
  {
    StyleUrl(Styles[styleIndex], randomSeed)
  }

  /** A user object; `None` or `Some("")` is a falsy field. */
  datatype User = User(username: Option<string>, email: Option<string>)

  /** `field || fallback` for a string field. */
  function OrElse(field: Option<string>, fallback: string): string {
    if field.Some? && field.value != "" then field.value else fallback
  }

  const DefaultUsername: string := "user"
  const DefaultEmail: string := "user@example.com"

  function GetUserAvatar(user: Option<User>, styleIndex: nat, randomSeed: string): string
    requires styleIndex < |Styles|
  {
    if user.None? then RandomAvatarUrl(styleIndex, randomSeed)
    else GenerateAvatarUrl(OrElse(user.value.username, DefaultUsername), OrElse(user.value.email, DefaultEmail))
  }

  /** A present user always gets the deterministic URL, with "user" and
      "user@example.com" standing in for missing fields; only a missing user
      depends on the random draw. */
  lemma UserAvatarDeterministic(user: User, i: nat, j: nat, s: string, t: string)
    requires i < |Styles| && j < |Styles|
    ensures GetUserAvatar(Some(user), i, s) == GetUserAvatar(Some(user), j, t)
    ensures user.username.None? && user.email.None? ==>
      GetUserAvatar(Some(user), i, s) == GenerateAvatarUrl(DefaultUsername, DefaultEmail)
  {
  }

  // ---------------------------------------------------------------- Avatar.jsx

  /** `getInitials()`: "?" without a name, otherwise the first two characters
      of the username (or, failing that, the e-mail), upper-cased. */
  function Initials(user: Option<User>): string {
    var name := if user.None? then "" else OrElse(user.value.username, OrElse(user.value.email, ""));
    if name == "" then "?" else ToUpper(Prefix(name, 2))
  }

  /** The username is preferred to the e-mail, and "?" stands for neither. */
  lemma InitialsShape(user: Option<User>)
    ensures var r := Initials(user);
      var u := if user.Some? then OrElse(user.value.username, "") else "";
      var e := if user.Some? then OrElse(user.value.email, "") else "";
      (u == "" && e == "" ==> r == "?")
      && (u != "" ==> r == ToUpper(u[..if |u| < 2 then |u| else 2]))
      && (u == "" && e != "" ==> r == ToUpper(e[..if |e| < 2 then |e| else 2]))
  {
  }

  /** What the component shows: the initials alone, or the image with the
      initials as a loading placeholder (hidden while loading). */
  datatype Shown =
    | InitialsOnly(initials: string)
    | Image(url: string, placeholder: Option<string>, visible: bool)

  function AvatarView(user: Option<User>, imageError: bool, isLoading: bool, showFallback: bool,
                      url: string): Shown {
    if imageError && showFallback then InitialsOnly(Initials(user))
    else Image(url, if isLoading && showFallback then Some(Initials(user)) else None, !isLoading)
  }

  /** The image is replaced by the initials exactly when it failed and the
      fallback is enabled; without the fallback no initials are ever shown. */
  lemma FallbackIff(user: Option<User>, imageError: bool, isLoading: bool, showFallback: bool, url: string)
    ensures var v := AvatarView(user, imageError, isLoading, showFallback, url);
      (v.InitialsOnly? <==> imageError && showFallback)
      && (!showFallback ==> v == Image(url, None, !isLoading))
  {
  }
}
