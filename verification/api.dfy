/** The decision logic of `ApiService` in Frontend/src/services/api.js: the
    headers every request carries, how a response becomes data or an error,
    and the local check of whether the stored token is still current. The
    browser is an input: the stored token, the fetch outcome, the token
    decoder (`atob` then `JSON.parse`) and the clock. */
module Api {
  import opened Wrappers
  import opened Text
  import opened JsValues

  type Headers = seq<(string, string)>

  const ContentType: (string, string) := ("Content-Type", "application/json")

  /** `getAuthHeaders()` for the value stored under `accessToken`: the JSON
      content type, then a bearer header when the token is a non-empty string. */
  function AuthHeaders(token: Option<string>): Headers {
    [ContentType] + if token.Some? && token.value != "" then [("Authorization", "Bearer " + token.value)] else []
  }

  /** The header names in `h`. */
  function Names(h: Headers): set<string> {
    set i | 0 <= i < |h| :: h[i].0
  }

  /** The content type is always sent, and the bearer header exactly when a
      non-empty token is stored, carrying that token. */
  lemma AuthHeadersShape(token: Option<string>)
    ensures var h := AuthHeaders(token);
      ContentType in h
      && ("Authorization" in Names(h) <==> token.Some? && token.value != "")
      && (token.Some? && token.value != "" ==> ("Authorization", "Bearer " + token.value) in h)
      && |h| <= 2
  {
    var h := AuthHeaders(token);
    assert h[0] == ContentType;
    if "Authorization" in Names(h) {
      var i :| 0 <= i < |h| && h[i].0 == "Authorization";
      assert i != 0;
    }
    if token.Some? && token.value != "" {
      assert h[1].0 == "Authorization";
    }
  }

  /** `{ headers: this.getAuthHeaders(), ...options }`: headers given in the
      options replace the computed ones wholesale. */
  function ConfigHeaders(token: Option<string>, optionHeaders: Option<Headers>): (h: Headers)
    ensures optionHeaders.Some? ==> h == optionHeaders.value
    ensures optionHeaders.None? ==> h == AuthHeaders(token)
  {
    if optionHeaders.Some? then optionHeaders.value else AuthHeaders(token)
  }

  // ---------------------------------------------------------------- request

  /** What `fetch` delivered: whether the status was 2xx, and the body parsed
      as JSON or the parse failure. */
  datatype Response = Response(ok: bool, json: Result<Value>)

  /** Why `request` throws. */
  datatype Failure =
    | NetworkFailure(reason: string)   // `fetch` rejected
    | ParseFailure(reason: string)     // `response.json()` rejected
    | ApiError(message: string)        // `new Error(data.detail || 'Request failed')`
    | NullData                         // reading `detail` of a null body throws a TypeError

  const RequestFailed: string := "Request failed"

  /** What `request` resolves to, or what it throws. */
  datatype Outcome = Data(value: Value) | Thrown(failure: Failure)

  /** `request(endpoint, options)` once the response is known. */
  function Request(response: Result<Response>): (r: Outcome)
    ensures r.Data? <==> response.Ok? && response.value.ok && response.value.json.Ok?
    ensures r.Data? ==> r.value == response.value.json.value
    ensures r.Thrown? && r.failure.NetworkFailure? <==> response.Err?
    ensures r.Thrown? && r.failure.ParseFailure? <==> response.Ok? && response.value.json.Err?
  {
    if response.Err? then Thrown(NetworkFailure(response.message))
    else if response.value.json.Err? then Thrown(ParseFailure(response.value.json.message))
    else
      var data := response.value.json.value;
      if response.value.ok then Data(data)
      else Thrown(ErrorOf(data))
  }

  /** The failure a non-ok response raises for its parsed body. */
  function ErrorOf(data: Value): (f: Failure)
    ensures f.ApiError? || f.NullData?
  {
    if data.Null? then NullData
    else
      var detail := Get(data, "detail");
      ApiError(if Truthy(detail) then ToJsString(detail) else RequestFailed)
  }

  /** `request` returns the parsed body exactly when the fetch succeeded, the
      body parsed and the status was ok; a non-ok response never returns data. */
  lemma RequestOkIff(response: Result<Response>)
    ensures Request(response).Data? <==> response.Ok? && response.value.ok && response.value.json.Ok?
    ensures Request(response).Data? ==> Request(response).value == response.value.json.value
    ensures response.Ok? && !response.value.ok && response.value.json.Ok? ==>
      Request(response) == Thrown(ErrorOf(response.value.json.value))
  {
  }

  /** A non-ok response throws the body's `detail` when it is truthy (as
      `String(detail)`) and "Request failed" otherwise. */
  lemma ErrorMessageRule(data: Value)
    requires !data.Null?
    ensures var detail := Get(data, "detail");
      (Truthy(detail) ==> ErrorOf(data) == ApiError(ToJsString(detail)))
      && (!Truthy(detail) ==> ErrorOf(data) == ApiError(RequestFailed))
      && (detail.Str? && detail.s != "" ==> ErrorOf(data) == ApiError(detail.s))
      && (!data.Obj? ==> ErrorOf(data) == ApiError(RequestFailed))
  {
  }

  // ---------------------------------------------------------------- isAuthenticated

  /** `Number(v)`, the coercion `exp * 1000` applies, or `None` for NaN.
      `numberOf` reads a trimmed, non-empty string as a JavaScript numeric
      literal (`None` when it is not one); a blank string is 0 and an array
      is coerced through its `join(',')` text. */
  function ToNumber(v: Value, numberOf: string -> Option<int>): (r: Option<int>)
    ensures v.Num? ==> r == Some(v.n)
    ensures v.Str? && !HasNonSpace(v.s, IsJsSpace) ==> r == Some(0)
    ensures v.Str? && HasNonSpace(v.s, IsJsSpace) ==> r == numberOf(JsTrim(v.s))
    ensures v.Undefined? || v.Obj? ==> r.None?
    ensures v == Arr([]) ==> r == Some(0)
  {
    match v
    case Num(n) => Some(n)
    case Bool(b) => Some(if b then 1 else 0)
    case Null => Some(0)
    case Str(s) => if HasNonSpace(s, IsJsSpace) then numberOf(JsTrim(s)) else Some(0)
    case Arr(_) => var text := ToJsString(v); if HasNonSpace(text, IsJsSpace) then numberOf(JsTrim(text)) else Some(0)
    case _ => None
  }

  /** `isAuthenticated()` for the stored token, the decoder of its middle
      part, the numeric-literal reader and the current time in milliseconds.
      Any exception is caught and answers false. */
  function IsAuthenticated(token: Option<string>, decode: string -> Result<Value>,
                           numberOf: string -> Option<int>, now: int): (r: bool)
    ensures r ==> token.Some? && |SplitOn(token.value, '.')| == 3
                  && Unexpired(decode(MiddlePart(token.value)), numberOf, now)
  {
    if token.None? || token.value == "" then false
    else
      var parts := SplitOn(token.value, '.');
      if |parts| != 3 then false
      else
        var payload := decode(parts[1]);
        if payload.Err? || payload.value.Null? then false
        else
          var exp := ToNumber(Get(payload.value, "exp"), numberOf);
          exp.Some? && exp.value * 1000 > now
  }

  /** The second dot-separated part of a token, if there is one. */
  function MiddlePart(token: string): string {
    var parts := SplitOn(token, '.');
    if |parts| > 1 then parts[1] else ""
  }

  /** A decoded payload is an object whose `exp`, read as seconds, lies after
      `now` milliseconds. */
  predicate Unexpired(payload: Result<Value>, numberOf: string -> Option<int>, now: int) {
    payload.Ok? && payload.value.Obj?
    && var exp := ToNumber(Get(payload.value, "exp"), numberOf);
       exp.Some? && exp.value * 1000 > now
  }

  /** A token counts as current exactly when it holds exactly two dots and
      its middle part decodes to an unexpired payload. */
  lemma AuthenticatedIff(token: Option<string>, decode: string -> Result<Value>,
                          numberOf: string -> Option<int>, now: int)
    ensures IsAuthenticated(token, decode, numberOf, now) <==>
      token.Some? && CountChar(token.value, '.') == 2 && Unexpired(decode(MiddlePart(token.value)), numberOf, now)
  {
    if token.Some? {
      SplitOnCount(token.value, '.');
    }
  }

  /** An expiry stored as a numeric string counts like the number it
      spells, as the multiplication coerces it. */
  lemma StringExpiry(token: string, decode: string -> Result<Value>,
                     numberOf: string -> Option<int>, now: int, text: string)
    requires CountChar(token, '.') == 2
    requires decode(MiddlePart(token)) == Ok(Obj([("exp", Str(text))]))
    requires HasNonSpace(text, IsJsSpace)
    ensures IsAuthenticated(Some(token), decode, numberOf, now) <==>
      numberOf(JsTrim(text)).Some? && numberOf(JsTrim(text)).value * 1000 > now
  {
    AuthenticatedIff(Some(token), decode, numberOf, now);
    assert Get(Obj([("exp", Str(text))]), "exp") == Str(text);
  }

  /** A token that is current now was current at every earlier time. */
  lemma AuthenticatedEarlier(token: Option<string>, decode: string -> Result<Value>,
                             numberOf: string -> Option<int>, now: int, earlier: int)
    requires earlier <= now
    requires IsAuthenticated(token, decode, numberOf, now)
    ensures IsAuthenticated(token, decode, numberOf, earlier)
  {
  }

  /** Without a stored token, or with one that does not split into three
      parts, the answer is false whatever the clock says. */
  lemma MalformedTokenRejected(token: Option<string>, decode: string -> Result<Value>,
                                numberOf: string -> Option<int>, now: int)
    requires token.None? || CountChar(token.value, '.') != 2
    ensures !IsAuthenticated(token, decode, numberOf, now)
  {
    if token.Some? {
      SplitOnCount(token.value, '.');
    }
  }
}
