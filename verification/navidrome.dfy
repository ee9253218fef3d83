/** `NavidromeRepository.kt`: the Subsonic API client of a Navidrome server. The server's
    reply to each request is an input; `baseUrl` is built from a server URL parameter. */
module Navidrome {
  import opened Wrappers
  import opened KotlinText
  import opened Decimal
  import opened Json
  import opened Utf8Hex
  import opened Urls
  import opened ServerLyrics

  const API_VERSION: string := "1.16.1"
  const CLIENT_NAME: string := "JellyTunes"

  /** The message of a `Result.failure(e)` made from a caught exception; the exception's own
      message is not modelled. */
  const CAUGHT_EXCEPTION: string := "exception"

  // ---------------------------------------------------------------- credentials and URLs

  /** The Subsonic `enc:` password: the prefix, then each UTF-8 byte as two lower-case hex digits. */
  function EncodedPassword(password: string): (r: string)
    ensures |r| == 4 + 2 * |Utf8(password)|
    ensures r[..4] == "enc:"
    ensures forall i :: 4 <= i < |r| ==> IsLowerHex(r[i])
  {
    "enc:" + Hex(Utf8(password))
  }

  /** The Subsonic `enc:` scheme decoded: the hex after the prefix read back as UTF-8. */
  function DecodePassword(p: string): Option<string> {
    if |p| < 4 || p[..4] != "enc:" then None
    else
      match Unhex(p[4..])
      case None => None
      case Some(bs) => DecodeUtf8(bs)
  }

  /** The server reads back exactly the password the client encoded. */
  lemma PasswordRoundTrip(password: string)
    ensures DecodePassword(EncodedPassword(password)) == Some(password)
  {
    var p := EncodedPassword(password);
    assert p[4..] == Hex(Utf8(password));
    HexRoundTrip(Utf8(password));
    Utf8RoundTrip(password);
  }

  lemma EncodedPasswordIsPlain(password: string)
    ensures Plain(EncodedPassword(password))
  {
    var p := EncodedPassword(password);
    forall i | 0 <= i < |p| ensures p[i] != '&' && p[i] != '=' && p[i] != '#' {
      if i < 4 {
        assert p[i] == "enc:"[i];
      }
    }
  }

  /** `baseUrl`: the server URL and a '/'. */
  function BaseUrl(serverUrl: string): string { serverUrl + "/" }

  /** The parameters every request starts with, in this order. */
  function AuthParams(username: string, password: string): seq<Param> {
    [("u", username), ("p", EncodedPassword(password)), ("f", "json"), ("v", API_VERSION),
     ("c", CLIENT_NAME)]
  }

  function Endpoint(serverUrl: string, view: string, ps: seq<Param>): string {
    BaseUrl(serverUrl) + "rest/" + view + "?" + Query(ps)
  }

  /** `authenticate`'s request. */
  function PingUrl(serverUrl: string, username: string, password: string): string {
    Endpoint(serverUrl, "ping.view", AuthParams(username, password))
  }

  /** `getRandomSongs`'s request, the count last. */
  function RandomSongsUrl(serverUrl: string, username: string, password: string, limit: int): (url: string)
    ensures EndsWith(url, "&size=" + LongToString(limit))
  {
    var ps := AuthParams(username, password);
    EndpointEndsWithLast(serverUrl, "getRandomSongs.view", ps, ("size", LongToString(limit)));
    SizeSuffix(LongToString(limit));
    Endpoint(serverUrl, "getRandomSongs.view", ps + [("size", LongToString(limit))])
  }

  lemma SizeSuffix(v: string)
    ensures "&" + "size" + "=" + v == "&size=" + v
  {
  }

  /** `getAudioStreamUrl`: never null. */
  function StreamUrl(songId: string, serverUrl: string, username: string, password: string): (r: Option<string>)
    ensures r.Some?
  {
    Some(Endpoint(serverUrl, "stream.view", AuthParams(username, password) + [("id", songId)]))
  }

  /** `getCoverArtUrl`: null exactly for an empty id; otherwise the size comes last. */
  function CoverArtUrl(coverArtId: string, serverUrl: string, username: string, password: string)
    : (r: Option<string>)
    ensures r.None? <==> coverArtId == ""
    ensures r.Some? ==> EndsWith(r.value, "&size=300")
  {
    if coverArtId == "" then None
    else
      var ps := AuthParams(username, password) + [("id", coverArtId)];
      CoverArtUrlEnds(serverUrl, ps);
      Some(Endpoint(serverUrl, "getCoverArt.view", ps + [("size", "300")]))
  }

  lemma CoverArtUrlEnds(serverUrl: string, ps: seq<Param>)
    requires |ps| >= 1
    ensures EndsWith(Endpoint(serverUrl, "getCoverArt.view", ps + [("size", "300")]), "&size=300")
  {
    EndpointEndsWithLast(serverUrl, "getCoverArt.view", ps, ("size", "300"));
    assert "&" + "size" + "=" + "300" == "&size=300";
  }

  /** `getLyricsBySongId`'s request. */
  function LyricsUrl(songId: string, serverUrl: string, username: string, password: string): string {
    Endpoint(serverUrl, "getLyricsBySongId.view", AuthParams(username, password) + [("id", songId)])
  }

  lemma {:induction false} QueryAppendOne(ps: seq<Param>, p: Param)
    requires |ps| >= 1
    ensures Query(ps + [p]) == Query(ps) + ("&" + p.0 + "=" + p.1)
    decreases |ps|
  {
    if |ps| == 1 {
      assert ps + [p] == [ps[0], p];
      assert [ps[0], p][1..] == [p];
    } else {
      assert (ps + [p])[1..] == ps[1..] + [p];
      QueryAppendOne(ps[1..], p);
    }
  }

  /** A query ends with its last parameter. */
  lemma QueryEndsWithLast(ps: seq<Param>, p: Param)
    requires |ps| >= 1
    ensures EndsWith(Query(ps + [p]), "&" + p.0 + "=" + p.1)
  {
    QueryAppendOne(ps, p);
    EndsWithAppend(Query(ps), "&" + p.0 + "=" + p.1);
  }

  lemma EndpointEndsWithLast(serverUrl: string, view: string, ps: seq<Param>, p: Param)
    requires |ps| >= 1
    ensures EndsWith(Endpoint(serverUrl, view, ps + [p]), "&" + p.0 + "=" + p.1)
  {
    QueryEndsWithLast(ps, p);
    EndsWithExtend(BaseUrl(serverUrl) + "rest/" + view + "?", Query(ps + [p]), "&" + p.0 + "=" + p.1);
  }

  lemma EndpointParams(serverUrl: string, view: string, ps: seq<Param>)
    requires '?' !in serverUrl && '?' !in view && |ps| >= 1 && PlainParams(ps)
    ensures QueryParams(Endpoint(serverUrl, view, ps)) == ps
  {
    var prefix := BaseUrl(serverUrl) + "rest/" + view;
    assert Endpoint(serverUrl, view, ps) == prefix + "?" + Query(ps);
    QueryRoundTrip(prefix, ps);
  }

  lemma AuthParamsPlain(username: string, password: string)
    requires Plain(username)
    ensures PlainParams(AuthParams(username, password))
  {
    var creds := [("u", username), ("p", EncodedPassword(password))];
    var fixed := [("f", "json"), ("v", API_VERSION), ("c", CLIENT_NAME)];
    assert AuthParams(username, password) == creds + fixed;
    CredentialsPlain(username, password);
    FixedParamsPlain();
    PlainAppend(creds, fixed);
  }

  lemma CredentialsPlain(username: string, password: string)
    requires Plain(username)
    ensures PlainParams([("u", username), ("p", EncodedPassword(password))])
  {
    EncodedPasswordIsPlain(password);
  }

  lemma FixedParamsPlain()
    ensures PlainParams([("f", "json"), ("v", API_VERSION), ("c", CLIENT_NAME)])
  {
    assert Plain("f") && Plain("json");
    assert Plain("v") && Plain(API_VERSION);
    assert Plain("c") && Plain(CLIENT_NAME);
  }

  lemma PlainAppend(ps: seq<Param>, qs: seq<Param>)
    requires PlainParams(ps) && PlainParams(qs)
    ensures PlainParams(ps + qs)
  {
    forall i | 0 <= i < |ps + qs| ensures Plain((ps + qs)[i].0) && Plain((ps + qs)[i].1) {
      if i >= |ps| {
        assert (ps + qs)[i] == qs[i - |ps|];
      }
    }
  }

  /** Read back, the stream and lyrics URLs carry u, p, f=json, v=1.16.1, c=JellyTunes and
      id in this order, as long as the server URL has no '?' and the user name and id no '&',
      '=' or '#'. */
  lemma SongUrlParameters(serverUrl: string, id: string, username: string, password: string)
    requires '?' !in serverUrl && Plain(username) && Plain(id)
    ensures QueryParams(StreamUrl(id, serverUrl, username, password).value) ==
              AuthParams(username, password) + [("id", id)]
    ensures QueryParams(LyricsUrl(id, serverUrl, username, password)) ==
              AuthParams(username, password) + [("id", id)]
  {
    var ps := AuthParams(username, password) + [("id", id)];
    assert Plain("id");
    AuthParamsThen(username, password, [("id", id)]);
    assert '?' !in "stream.view" && '?' !in "getLyricsBySongId.view";
    EndpointParams(serverUrl, "stream.view", ps);
    EndpointParams(serverUrl, "getLyricsBySongId.view", ps);
  }

  /** Read back, the cover URL carries the same parameters and then size=300. */
  lemma CoverArtUrlParameters(serverUrl: string, id: string, username: string, password: string)
    requires '?' !in serverUrl && Plain(username) && Plain(id) && id != ""
    ensures QueryParams(CoverArtUrl(id, serverUrl, username, password).value) ==
              AuthParams(username, password) + [("id", id), ("size", "300")]
  {
    var a := AuthParams(username, password);
    var tail := [("id", id), ("size", "300")];
    CoverTailPlain(id);
    AuthParamsThen(username, password, tail);
    assert a + [("id", id)] + [("size", "300")] == a + tail;
    assert '?' !in "getCoverArt.view";
    EndpointParams(serverUrl, "getCoverArt.view", a + tail);
  }

  lemma CoverTailPlain(id: string)
    requires Plain(id)
    ensures PlainParams([("id", id), ("size", "300")])
  {
    assert Plain("id") && Plain("size") && Plain("300");
  }

  lemma AuthParamsThen(username: string, password: string, tail: seq<Param>)
    requires Plain(username) && PlainParams(tail)
    ensures PlainParams(AuthParams(username, password) + tail)
  {
    AuthParamsPlain(username, password);
    PlainAppend(AuthParams(username, password), tail);
  }

  /** A printed number needs no escaping: a sign and digits only. */
  lemma NumberIsPlain(n: int)
    ensures Plain(LongToString(n))
  {
    var t := NatToString(if n < 0 then -n else n);
    assert forall i :: 0 <= i < |t| ==> IsDigit(t[i]);
    if n < 0 {
      assert LongToString(n) == "-" + t;
      assert forall i :: 1 <= i < |"-" + t| ==> ("-" + t)[i] == t[i - 1];
    }
  }

  /** Read back, the random-songs request carries the credentials and then the count. */
  lemma RandomSongsUrlParameters(serverUrl: string, username: string, password: string, limit: int)
    requires '?' !in serverUrl && Plain(username)
    ensures QueryParams(RandomSongsUrl(serverUrl, username, password, limit)) ==
              AuthParams(username, password) + [("size", LongToString(limit))]
  {
    var tail := [("size", LongToString(limit))];
    NumberIsPlain(limit);
    assert Plain("size");
    assert PlainParams(tail);
    AuthParamsThen(username, password, tail);
    assert '?' !in "getRandomSongs.view";
    EndpointParams(serverUrl, "getRandomSongs.view", AuthParams(username, password) + tail);
  }

  /** Read back, the login ping carries exactly the five credential parameters. */
  lemma PingUrlParameters(serverUrl: string, username: string, password: string)
    requires '?' !in serverUrl && Plain(username)
    ensures QueryParams(PingUrl(serverUrl, username, password)) == AuthParams(username, password)
  {
    AuthParamsPlain(username, password);
    assert '?' !in "ping.view";
    EndpointParams(serverUrl, "ping.view", AuthParams(username, password));
  }

  // ---------------------------------------------------------------- responses

  /** The HTTP exchange: an I/O failure, or a status code with an optional body. A body holds
      its text and, when Gson reads the text as a map, that map. */
  datatype Body = Body(text: string, parsed: Option<Fields>)
  datatype Exchange = IoFailure | Response(code: int, body: Option<Body>)

  /** A call either returns a `Result` or lets an exception escape. */
  datatype Outcome<T> = Returned(result: Result<T>) | Throws

  predicate IsSuccessful(code: int) { 200 <= code < 300 }

  /** `subsonic-response` as a map. */
  function Envelope(top: Fields): Option<Fields> {
    AsObject(Get(top, "subsonic-response"))
  }

  predicate StatusOk(envelope: Option<Fields>) {
    envelope.Some? && AsString(Get(envelope.value, "status")) == Some("ok")
  }

  /** The failure message for any status but "ok": the server's error message, or
      "Unknown error" when it gives none. */
  function ApiError(envelope: Option<Fields>): (msg: string)
    ensures var error := if envelope.Some? then AsObject(Get(envelope.value, "error")) else None;
            var m := if error.Some? then AsString(Get(error.value, "message")) else None;
            msg == "Subsonic API error: " + (if m.Some? then m.value else "Unknown error")
  {
    var error := if envelope.Some? then AsObject(Get(envelope.value, "error")) else None;
    var m := if error.Some? then AsString(Get(error.value, "message")) else None;
    "Subsonic API error: " + m.GetOr("Unknown error")
  }

  datatype LoginResponse = LoginResponse(id: string, username: string, token: string, isAdmin: bool)

  /** `authenticate`: every exception is caught. An "ok" ping yields a response made from the
      user name alone; another status the API error; an unsuccessful reply the code and body. */
  function Authenticate(username: string, password: string, ex: Exchange): (r: Result<LoginResponse>)
    ensures r.Success? ==> r.value == LoginResponse(username, username, "", false)
    ensures r.Success? <==> ex.Response? && IsSuccessful(ex.code) && ex.body.Some? &&
                            ex.body.value.parsed.Some? && StatusOk(Envelope(ex.body.value.parsed.value))
    ensures ex.Response? && !(IsSuccessful(ex.code) && ex.body.Some?) ==>
              r == Failure("Authentication failed: " + LongToString(ex.code) + " - " +
                           (if ex.body.Some? then ex.body.value.text else "No error body"))
    ensures ex.IoFailure? ==> r == Failure(CAUGHT_EXCEPTION)
    ensures ex.Response? && IsSuccessful(ex.code) && ex.body.Some? && ex.body.value.parsed.None? ==>
              r == Failure(CAUGHT_EXCEPTION)
    ensures ParsedTop(ex).Some? && !StatusOk(Envelope(ParsedTop(ex).value)) ==>
              r == Failure(ApiError(Envelope(ParsedTop(ex).value)))
  {
    match ex
    case IoFailure => Failure(CAUGHT_EXCEPTION)
    case Response(code, body) =>
      if IsSuccessful(code) && body.Some? then
        match body.value.parsed
        case None => Failure(CAUGHT_EXCEPTION)
        case Some(top) =>
          var envelope := Envelope(top);
          if StatusOk(envelope) then Success(LoginResponse(username, username, "", false))
          else Failure(ApiError(envelope))
      else
        var errorBody := if body.Some? then body.value.text else "No error body";
        Failure("Authentication failed: " + LongToString(code) + " - " + errorBody)
  }

  // ---------------------------------------------------------------- songs

  datatype NavidromeSong = NavidromeSong(
    id: string,
    title: string,
    artist: Option<string>,
    album: Option<string>,
    trackNumber: Option<int>,
    year: Option<int>,
    genre: Option<string>,
    duration: Option<int>,
    bitRate: Option<int>,
    contentType: Option<string>,
    suffix: Option<string>,
    path: Option<string>,
    albumId: Option<string>,
    artistId: Option<string>,
    coverArt: Option<string>,
    size: Option<int>,
    discNumber: Option<int>,
    created: Option<string>,
    albumArtist: Option<string>)

  function Text(m: Fields, key: string): Option<string> { AsString(Get(m, key)) }

  /** A numeric field truncated to an `Int`; absent when the key is missing or not a number. */
  function IntField(m: Fields, key: string): (r: Option<int>)
    ensures r.Some? <==> AsNumber(Get(m, key)).Some?
    ensures r.Some? ==> IsInt(r.value)
    ensures AsNumber(Get(m, key)).Some? ==> r == Some(DoubleToInt(AsNumber(Get(m, key)).value))
  {
    match AsNumber(Get(m, key))
    case None => None
    case Some(x) => Some(DoubleToInt(x))
  }

  /** A numeric field truncated to a `Long`; absent when the key is missing or not a number. */
  function LongField(m: Fields, key: string): (r: Option<int>)
    ensures r.Some? <==> AsNumber(Get(m, key)).Some?
    ensures r.Some? ==> IsLong(r.value)
    ensures AsNumber(Get(m, key)).Some? ==> r == Some(DoubleToLong(AsNumber(Get(m, key)).value))
  {
    match AsNumber(Get(m, key))
    case None => None
    case Some(x) => Some(DoubleToLong(x))
  }

  /** One entry of `randomSongs.song`: id and title default to "", the other fields stay null
      when absent or of another type; numbers are truncated to `Int` (size to `Long`). */
  function SongOf(m: Fields): (s: NavidromeSong)
    ensures s.id == Text(m, "id").GetOr("") && s.title == Text(m, "title").GetOr("")
    ensures s.artist == Text(m, "artist") && s.album == Text(m, "album") && s.coverArt == Text(m, "coverArt")
    ensures s.duration.Some? <==> AsNumber(Get(m, "duration")).Some?
    ensures s.trackNumber == IntField(m, "track") && s.year == IntField(m, "year")
    ensures s.duration == IntField(m, "duration") && s.bitRate == IntField(m, "bitRate")
    ensures s.discNumber == IntField(m, "discNumber") && s.size == LongField(m, "size")
    ensures s.genre == Text(m, "genre") && s.contentType == Text(m, "contentType")
    ensures s.suffix == Text(m, "suffix") && s.path == Text(m, "path")
    ensures s.albumId == Text(m, "albumId") && s.artistId == Text(m, "artistId")
    ensures s.created == Text(m, "created") && s.albumArtist == Text(m, "albumArtist")
  {
    NavidromeSong(
      Text(m, "id").GetOr(""),
      Text(m, "title").GetOr(""),
      Text(m, "artist"),
      Text(m, "album"),
      IntField(m, "track"),
      IntField(m, "year"),
      Text(m, "genre"),
      IntField(m, "duration"),
      IntField(m, "bitRate"),
      Text(m, "contentType"),
      Text(m, "suffix"),
      Text(m, "path"),
      Text(m, "albumId"),
      Text(m, "artistId"),
      Text(m, "coverArt"),
      LongField(m, "size"),
      IntField(m, "discNumber"),
      Text(m, "created"),
      Text(m, "albumArtist"))
  }

  /** The reply's top-level map: present for a successful response with a body Gson reads. */
  function ParsedTop(ex: Exchange): Option<Fields> {
    if ex.Response? && IsSuccessful(ex.code) && ex.body.Some? then ex.body.value.parsed else None
  }

  /** `randomSongs.song`, when both are there and of the right type. */
  function SongList(envelope: Fields): Option<seq<Json>> {
    AsArray(Get(AsObject(Get(envelope, "randomSongs")).GetOr([]), "song"))
  }

  predicate AllObjects(items: seq<Json>) {
    forall i :: 0 <= i < |items| ==> items[i].JObject?
  }

  /** `getRandomSongs`: only I/O failures are caught, so a body Gson cannot read or a song that
      is not a map lets the exception escape. An "ok" reply gives one song per entry, in order,
      or none when the list is missing. */
  function GetRandomSongs(ex: Exchange): (r: Outcome<seq<NavidromeSong>>)
    ensures ex.IoFailure? ==> r == Returned(Failure(CAUGHT_EXCEPTION))
    ensures ex.Response? && !(IsSuccessful(ex.code) && ex.body.Some?) ==>
              r == Returned(Failure("Failed to fetch random songs: " + LongToString(ex.code)))
    ensures ex.Response? && ex.body.Some? && IsSuccessful(ex.code) && ex.body.value.parsed.None? ==> r == Throws
    ensures ParsedTop(ex).Some? && !StatusOk(Envelope(ParsedTop(ex).value)) ==>
              r == Returned(Failure(ApiError(Envelope(ParsedTop(ex).value))))
    ensures ParsedTop(ex).Some? && StatusOk(Envelope(ParsedTop(ex).value)) ==>
              var songs := SongList(Envelope(ParsedTop(ex).value).value);
              (songs.None? ==> r == Returned(Success([]))) &&
              (songs.Some? && !AllObjects(songs.value) ==> r == Throws) &&
              (songs.Some? && AllObjects(songs.value) ==> r.Returned? && r.result.Success?)
    ensures r.Returned? && r.result.Success? ==>
              ex.Response? && ex.body.Some? && ex.body.value.parsed.Some? &&
              var envelope := Envelope(ex.body.value.parsed.value);
              StatusOk(envelope) &&
              var songs := SongList(envelope.value);
              (songs.None? ==> r.result.value == []) &&
              (songs.Some? ==>
                 |r.result.value| == |songs.value| &&
                 forall i :: 0 <= i < |songs.value| ==>
                   songs.value[i].JObject? && r.result.value[i] == SongOf(songs.value[i].fields))
  {
    match ex
    case IoFailure => Returned(Failure(CAUGHT_EXCEPTION))
    case Response(code, body) =>
      if !(IsSuccessful(code) && body.Some?) then
        Returned(Failure("Failed to fetch random songs: " + LongToString(code)))
      else
        match body.value.parsed
        case None => Throws
        case Some(top) =>
          var envelope := Envelope(top);
          if !StatusOk(envelope) then Returned(Failure(ApiError(envelope)))
          else SongsOf(envelope.value)
  }

  /** An "ok" reply's songs: none when the list is missing, one per entry in order when every
      entry is a map, and the escaping cast exception otherwise. */
  function SongsOf(envelope: Fields): (r: Outcome<seq<NavidromeSong>>)
    ensures var songs := SongList(envelope);
            (songs.None? ==> r == Returned(Success([]))) &&
            (songs.Some? && !AllObjects(songs.value) ==> r == Throws) &&
            (songs.Some? && AllObjects(songs.value) ==>
               r.Returned? && r.result.Success? && |r.result.value| == |songs.value| &&
               forall i :: 0 <= i < |songs.value| ==> r.result.value[i] == SongOf(songs.value[i].fields))
  {
    var songs := SongList(envelope);
    if songs.None? then Returned(Success([]))
    else if !AllObjects(songs.value) then Throws
    else
      Returned(Success(seq(|songs.value|, i requires 0 <= i < |songs.value| =>
                             SongOf(songs.value[i].fields))))
  }

  // ---------------------------------------------------------------- lyrics

  /** The line's text: the value of its first entry not keyed "start", when that is a string;
      otherwise "". */
  function LineText(m: Fields): (r: string)
    ensures r != "" ==> exists i :: 0 <= i < |m| && m[i].0 != "start" && m[i].1 == JString(r) &&
                                    forall j :: 0 <= j < i ==> m[j].0 == "start"
    ensures (forall i :: 0 <= i < |m| ==> m[i].0 == "start") ==> r == ""
    ensures forall i :: 0 <= i < |m| && m[i].0 != "start" && (forall j :: 0 <= j < i ==> m[j].0 == "start") ==>
              r == (if m[i].1.JString? then m[i].1.s else "")
  {
    if |m| == 0 then ""
    else if m[0].0 != "start" then (if m[0].1.JString? then m[0].1.s else "")
    else
      var r := LineText(m[1..]);
      if r != "" then
        var i :| 0 <= i < |m| - 1 && m[1..][i].0 != "start" && m[1..][i].1 == JString(r) &&
                 forall j :: 0 <= j < i ==> m[1..][j].0 == "start";
        assert m[i + 1].0 != "start" && m[i + 1].1 == JString(r);
        r
      else r
  }

  /** One lyric line: `start` when it is a number (truncated to `Long`), else 0. */
  function LineOf(m: Fields): (l: LyricsLine)
    ensures AsNumber(Get(m, "start")).None? ==> l.start == 0
    ensures AsNumber(Get(m, "start")).Some? ==> l.start == DoubleToLong(AsNumber(Get(m, "start")).value)
    ensures l.value == LineText(m)
  {
    var start := AsNumber(Get(m, "start"));
    LyricsLine(if start.Some? then DoubleToLong(start.value) else 0, LineText(m))
  }

  /** The `line` list of the first structured-lyrics entry, when there is one. */
  function FirstLines(envelope: Fields): Option<Option<seq<Json>>> {
    var structured := AsArray(Get(AsObject(Get(envelope, "lyricsList")).GetOr([]), "structuredLyrics"));
    if structured.None? || |structured.value| == 0 then Some(None)
    else if !structured.value[0].JObject? then None
    else Some(AsArray(Get(structured.value[0].fields, "line")))
  }

  /** `getLyricsBySongId`: lines of the first structured-lyrics entry only, one per element in
      order; missing or empty lists give no lines; elements that are not maps throw. */
  function GetLyricsBySongId(ex: Exchange): (r: Outcome<seq<LyricsLine>>)
    ensures ex.IoFailure? ==> r == Returned(Failure(CAUGHT_EXCEPTION))
    ensures ex.Response? && !(IsSuccessful(ex.code) && ex.body.Some?) ==>
              r == Returned(Failure("Failed to fetch lyrics: " + LongToString(ex.code)))
    ensures ex.Response? && IsSuccessful(ex.code) && ex.body.Some? && ex.body.value.parsed.None? ==> r == Throws
    ensures ex.Response? && ex.body.Some? && IsSuccessful(ex.code) && ex.body.value.parsed.Some? &&
            !StatusOk(Envelope(ex.body.value.parsed.value)) ==>
              r == Returned(Failure(ApiError(Envelope(ex.body.value.parsed.value))))
    ensures ParsedTop(ex).Some? && StatusOk(Envelope(ParsedTop(ex).value)) ==>
              var lines := FirstLines(Envelope(ParsedTop(ex).value).value);
              (lines.None? ==> r == Throws) &&
              (lines == Some(None) || lines == Some(Some([])) ==> r == Returned(Success([]))) &&
              (lines.Some? && lines.value.Some? && |lines.value.value| > 0 ==>
                 (AllObjects(lines.value.value) <==> r.Returned?) &&
                 (r.Returned? ==> r.result.Success? && |r.result.value| == |lines.value.value|))
    ensures r.Returned? && r.result.Success? && r.result.value != [] ==>
              ex.Response? && ex.body.Some? && ex.body.value.parsed.Some? &&
              var envelope := Envelope(ex.body.value.parsed.value);
              StatusOk(envelope) && FirstLines(envelope.value).Some? &&
              var lines := FirstLines(envelope.value).value;
              lines.Some? && |r.result.value| == |lines.value| &&
              forall i :: 0 <= i < |lines.value| ==>
                lines.value[i].JObject? && r.result.value[i] == LineOf(lines.value[i].fields)
  {
    match ex
    case IoFailure => Returned(Failure(CAUGHT_EXCEPTION))
    case Response(code, body) =>
      if !(IsSuccessful(code) && body.Some?) then
        Returned(Failure("Failed to fetch lyrics: " + LongToString(code)))
      else
        match body.value.parsed
        case None => Throws
        case Some(top) =>
          var envelope := Envelope(top);
          if !StatusOk(envelope) then Returned(Failure(ApiError(envelope)))
          else LyricLinesOf(envelope.value)
  }

  /** An "ok" reply's lyric lines: none when the first entry has no line list or an empty
      one, one per element in order when every element is a map, and the escaping cast
      exception for a first entry or an element that is not a map. */
  function LyricLinesOf(envelope: Fields): (r: Outcome<seq<LyricsLine>>)
    ensures var lines := FirstLines(envelope);
            (lines.None? ==> r == Throws) &&
            (lines == Some(None) || lines == Some(Some([])) ==> r == Returned(Success([]))) &&
            (lines.Some? && lines.value.Some? && |lines.value.value| > 0 ==>
               (AllObjects(lines.value.value) <==> r.Returned?) &&
               (r.Returned? ==>
                  r.result.Success? && |r.result.value| == |lines.value.value| &&
                  forall i :: 0 <= i < |lines.value.value| ==>
                    r.result.value[i] == LineOf(lines.value.value[i].fields)))
  {
    match FirstLines(envelope)
    case None => Throws
    case Some(lines) =>
      if lines.None? || |lines.value| == 0 then Returned(Success([]))
      else if !AllObjects(lines.value) then Throws
      else
        Returned(Success(seq(|lines.value|, i requires 0 <= i < |lines.value| =>
                               LineOf(lines.value[i].fields))))
  }

  /** Structured-lyrics entries after the first are never read. */
  lemma OnlyFirstLyricsEntryCounts(envelope: Fields, first: Json, rest1: seq<Json>, rest2: seq<Json>,
                                   other: Fields)
    requires Get(envelope, "lyricsList") == Some(JObject(other))
    requires Get(other, "structuredLyrics") == Some(JArray([first] + rest1))
    ensures FirstLines(envelope) ==
            FirstLines([("lyricsList", JObject([("structuredLyrics", JArray([first] + rest2))]))])
  {
  }

  // ---------------------------------------------------------------- authentication state

  /** `authToken` and `salt`: nothing ever assigns them. */
  datatype Client = Client(authToken: Option<string>, salt: Option<string>)

  const NEW_CLIENT: Client := Client(None, None)

  function IsAuthenticated(c: Client): bool {
    c.authToken.Some? && c.salt.Some?
  }

  datatype Call =
    | AuthenticateCall(username: string, password: string, ex: Exchange)
    | RandomSongsCall(ex: Exchange)
    | LyricsCall(ex: Exchange)
    | StreamUrlCall(songId: string, username: string, password: string)
    | CoverArtUrlCall(coverArtId: string, username: string, password: string)

  /** What a public call hands back to its caller. */
  datatype Reply =
    | LoginReply(login: Result<LoginResponse>)
    | SongsReply(songs: Outcome<seq<NavidromeSong>>)
    | LyricsReply(lines: Outcome<seq<LyricsLine>>)
    | UrlReply(url: Option<string>)

  /** Any public call, dispatched to its model: the reply is that call's result, and the two
      fields are left as they were, a successful login included. */
  function Perform(serverUrl: string, c: Client, call: Call): (r: (Client, Reply))
    ensures r.0.authToken == c.authToken && r.0.salt == c.salt
    ensures call.AuthenticateCall? ==>
              r.1.LoginReply? &&
              (r.1.login.Success? <==>
                 ParsedTop(call.ex).Some? && StatusOk(Envelope(ParsedTop(call.ex).value)))
    ensures call.RandomSongsCall? ==> r.1.SongsReply?
    ensures call.LyricsCall? ==> r.1.LyricsReply?
    ensures call.StreamUrlCall? ==> r.1.UrlReply? && r.1.url.Some?
    ensures call.CoverArtUrlCall? ==> r.1.UrlReply? && (r.1.url.None? <==> call.coverArtId == "")
  {
    var reply := match call
      case AuthenticateCall(username, password, ex) => LoginReply(Authenticate(username, password, ex))
      case RandomSongsCall(ex) => SongsReply(GetRandomSongs(ex))
      case LyricsCall(ex) => LyricsReply(GetLyricsBySongId(ex))
      case StreamUrlCall(id, username, password) => UrlReply(StreamUrl(id, serverUrl, username, password))
      case CoverArtUrlCall(id, username, password) => UrlReply(CoverArtUrl(id, serverUrl, username, password));
    (c, reply)
  }

  /** A session: the calls in order, each on the client the previous one left. */
  function Run(serverUrl: string, c: Client, calls: seq<Call>): (r: (Client, seq<Reply>))
    ensures |r.1| == |calls|
    decreases |calls|
  {
    if |calls| == 0 then (c, [])
    else
      var first := Perform(serverUrl, c, calls[0]);
      var rest := Run(serverUrl, first.0, calls[1..]);
      (rest.0, [first.1] + rest.1)
  }

  /** `isAuthenticated()` is false after any session, successful logins included. */
  lemma NeverAuthenticated(serverUrl: string, calls: seq<Call>)
    ensures !IsAuthenticated(Run(serverUrl, NEW_CLIENT, calls).0)
  {
    RunKeepsFields(serverUrl, NEW_CLIENT, calls);
  }

  /** A session leaves the client as it was, and every reply is what its call gives on its
      own: no call's answer depends on the calls made before it. */
  lemma {:induction false} RunKeepsFields(serverUrl: string, c: Client, calls: seq<Call>)
    ensures Run(serverUrl, c, calls).0 == c
    ensures forall i :: 0 <= i < |calls| ==> Run(serverUrl, c, calls).1[i] == Perform(serverUrl, NEW_CLIENT, calls[i]).1
    decreases |calls|
  {
    if |calls| > 0 {
      var first := Perform(serverUrl, c, calls[0]);
      RunKeepsFields(serverUrl, first.0, calls[1..]);
      var r, rest := Run(serverUrl, c, calls), Run(serverUrl, first.0, calls[1..]);
      forall i | 0 <= i < |calls|
        ensures r.1[i] == Perform(serverUrl, NEW_CLIENT, calls[i]).1
      {
        if i > 0 {
          assert r.1[i] == rest.1[i - 1] && calls[i] == calls[1..][i - 1];
        }
      }
    }
  }
}
