/** `JellyfinRepository.kt`: the Jellyfin client's login state and URL builders. The server's
    replies are inputs; `baseUrl` is built from a server URL parameter. */
module Jellyfin {
  import opened Wrappers
  import opened KotlinText
  import opened Decimal
  import opened Urls

  /** The message of a `Result.failure(e)` made from a caught I/O exception. */
  const CAUGHT_EXCEPTION: string := "exception"

  /** `accessToken` and `userId`. */
  datatype Session = Session(accessToken: Option<string>, userId: Option<string>)

  const NEW_SESSION: Session := Session(None, None)

  predicate IsAuthenticated(s: Session) {
    s.accessToken.Some? && s.userId.Some?
  }

  /** `AuthenticationResult` as Gson fills it: a field missing from the reply stays null even
      where Kotlin declares it non-null. */
  datatype User = User(id: Option<string>, name: Option<string>)
  datatype AuthenticationResult =
    AuthenticationResult(user: Option<User>, accessToken: Option<string>, serverId: Option<string>)

  /** A reply body: its text and what Gson decodes it to (None when decoding throws or yields
      null). */
  datatype Body<T> = Body(text: string, decoded: Option<T>)
  datatype Exchange<T> = IoFailure | Response(code: int, body: Option<Body<T>>)

  datatype Outcome<T> = Returned(result: Result<T>) | Throws

  predicate IsSuccessful(code: int) { 200 <= code < 300 }

  /** `authenticate`: only I/O failures are caught. A decoded reply's token is stored first and
      its user's id second, so a reply without a user throws after the token has changed. */
  function Authenticate(s: Session, ex: Exchange<AuthenticationResult>)
    : (r: (Session, Outcome<AuthenticationResult>))
    ensures r.1.Returned? && r.1.result.Success? ==>
              r.1.result.value.user.Some? &&
              r.0 == Session(r.1.result.value.accessToken, r.1.result.value.user.value.id)
    ensures r.1.Returned? && r.1.result.Failure? ==> r.0 == s
    ensures ex.Response? && !(IsSuccessful(ex.code) && ex.body.Some?) ==>
              r.1 == Returned(Failure("Authentication failed: " + LongToString(ex.code) + " - " +
                                      (if ex.body.Some? then ex.body.value.text else "No error body")))
    ensures ex.IoFailure? ==> r == (s, Returned(Failure(CAUGHT_EXCEPTION)))
    ensures ex.Response? && IsSuccessful(ex.code) && ex.body.Some? ==>
              var d := ex.body.value.decoded;
              (d.None? ==> r == (s, Throws)) &&
              (d.Some? && d.value.user.Some? ==>
                 r.1 == Returned(Success(d.value)) &&
                 r.0 == s.(accessToken := d.value.accessToken, userId := d.value.user.value.id)) &&
              (d.Some? && d.value.user.None? ==>
                 r.1 == Throws && r.0 == s.(accessToken := d.value.accessToken))
  {
    match ex
    case IoFailure => (s, Returned(Failure(CAUGHT_EXCEPTION)))
    case Response(code, body) =>
      if IsSuccessful(code) && body.Some? then
        match body.value.decoded
        case None => (s, Throws)
        case Some(a) =>
          var s1 := s.(accessToken := a.accessToken);
          if a.user.None? then (s1, Throws)
          else (s1.(userId := a.user.value.id), Returned(Success(a)))
      else
        var errorBody := if body.Some? then body.value.text else "No error body";
        (s, Returned(Failure("Authentication failed: " + LongToString(code) + " - " + errorBody)))
  }

  /** A successful login with a token and a user id leaves the session authenticated; one whose
      reply lacks the token leaves it unauthenticated even though the call succeeded. */
  lemma LoginAuthenticates(s: Session, ex: Exchange<AuthenticationResult>)
    requires Authenticate(s, ex).1.Returned? && Authenticate(s, ex).1.result.Success?
    ensures var a := Authenticate(s, ex).1.result.value;
            IsAuthenticated(Authenticate(s, ex).0) <==> a.accessToken.Some? && a.user.value.id.Some?
  {
  }

  datatype BaseItemDto = BaseItemDto(id: Option<string>, name: Option<string>)
  datatype BaseItemDtoQueryResult = BaseItemDtoQueryResult(items: Option<seq<BaseItemDto>>)

  /** The request `getRandomAudioItems` sends: URL and `X-MediaBrowser-Token`. */
  datatype Request = Request(url: string, token: string)

  function ItemsParams(limit: int): seq<Param> {
    [("IncludeItemTypes", "Audio"), ("Recursive", "true"), ("SortBy", "Random"),
     ("Limit", LongToString(limit))]
  }

  function ItemsUrl(serverUrl: string, userId: string, limit: int): string {
    serverUrl + "/" + "Users/" + userId + "/Items" + "?" + Query(ItemsParams(limit))
  }

  /** `getRandomAudioItems`: without a token and a user id it fails with "Not authenticated"
      and sends nothing; otherwise it sends one request for the user's items with the token. The
      reply's item list is passed through as decoded (null when the reply has none). */
  function GetRandomAudioItems(s: Session, serverUrl: string, limit: int,
                               ex: Exchange<BaseItemDtoQueryResult>)
    : (r: (Option<Request>, Outcome<Option<seq<BaseItemDto>>>))
    ensures !IsAuthenticated(s) <==> r.0.None?
    ensures !IsAuthenticated(s) ==> r.1 == Returned(Failure("Not authenticated"))
    ensures r.0.Some? ==> r.0.value == Request(ItemsUrl(serverUrl, s.userId.value, limit),
                                               s.accessToken.value)
    ensures IsAuthenticated(s) && ex.Response? && !(IsSuccessful(ex.code) && ex.body.Some?) ==>
              r.1 == Returned(Failure("Failed to fetch audio items: " + LongToString(ex.code)))
    ensures IsAuthenticated(s) && ex.IoFailure? ==> r.1 == Returned(Failure(CAUGHT_EXCEPTION))
    ensures IsAuthenticated(s) && ex.Response? && IsSuccessful(ex.code) && ex.body.Some? ==>
              var d := ex.body.value.decoded;
              (d.None? ==> r.1 == Throws) &&
              (d.Some? ==> r.1 == Returned(Success(d.value.items)))
  {
    if !IsAuthenticated(s) then (None, Returned(Failure("Not authenticated")))
    else
      var request := Request(ItemsUrl(serverUrl, s.userId.value, limit), s.accessToken.value);
      match ex
      case IoFailure => (Some(request), Returned(Failure(CAUGHT_EXCEPTION)))
      case Response(code, body) =>
        if IsSuccessful(code) && body.Some? then
          match body.value.decoded
          case None => (Some(request), Throws)
          case Some(result) => (Some(request), Returned(Success(result.items)))
        else (Some(request), Returned(Failure("Failed to fetch audio items: " + LongToString(code))))
  }

  /** `getAudioStreamUrl`: null unless authenticated. */
  function StreamUrl(s: Session, serverUrl: string, itemId: string): (r: Option<string>)
    ensures r.Some? <==> IsAuthenticated(s)
  {
    if IsAuthenticated(s) then
      Some(serverUrl + "/" + "Audio/" + itemId + "/stream" + "?" +
           Query([("static", "true"), ("userId", s.userId.value)]))
    else None
  }

  /** `getImageUrl`: the tag parameter only when a tag is given, quality=90 always last. */
  function ImageUrl(serverUrl: string, itemId: string, imageTag: Option<string>): (url: string)
    ensures EndsWith(url, "quality=90")
  {
    var ps := if imageTag.Some? then [("tag", imageTag.value), ("quality", "90")] else [("quality", "90")];
    var url := serverUrl + "/" + "Items/" + itemId + "/Images/Primary" + "?" + Query(ps);
    assert Query(ps) == (if imageTag.Some? then "tag=" + imageTag.value + "&" else "") + "quality=90";
    assert url[|url| - |"quality=90"|..] == "quality=90";
    url
  }

  /** Read back, the stream URL names the user the session logged in as. */
  lemma StreamUrlParameters(s: Session, serverUrl: string, itemId: string)
    requires IsAuthenticated(s) && '?' !in serverUrl && '?' !in itemId && Plain(s.userId.value)
    ensures QueryParams(StreamUrl(s, serverUrl, itemId).value) ==
              [("static", "true"), ("userId", s.userId.value)]
  {
    QueryRoundTrip(serverUrl + "/" + "Audio/" + itemId + "/stream",
                   [("static", "true"), ("userId", s.userId.value)]);
  }

  /** Read back, the image URL carries `tag` exactly when a tag was given, then quality=90. */
  lemma ImageUrlParameters(serverUrl: string, itemId: string, imageTag: Option<string>)
    requires '?' !in serverUrl && '?' !in itemId
    requires imageTag.Some? ==> Plain(imageTag.value)
    ensures QueryParams(ImageUrl(serverUrl, itemId, imageTag)) ==
              (if imageTag.Some? then [("tag", imageTag.value)] else []) + [("quality", "90")]
  {
    var ps := if imageTag.Some? then [("tag", imageTag.value), ("quality", "90")] else [("quality", "90")];
    QueryRoundTrip(serverUrl + "/" + "Items/" + itemId + "/Images/Primary", ps);
  }
}
