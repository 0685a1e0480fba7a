/**
 * src/modules/api/romm.py: the client of the game catalogue's HTTP API. The
 * model builds each request (URL, headers, query parameters, JSON body)
 * exactly as the client does and records it; the server's answer is a
 * parameter, a function of the request and of every request it received
 * before, so that a listing reflects the deletes that preceded it.
 */
module RommApi {
  import opened Common
  import opened Text
  import Helpers

  /** JSON values as Python holds them after `resp.json()`; JNull is `None`. */
  datatype Json = JNull | JBool(b: bool) | JInt(i: int) | JStr(s: string) | JList(items: seq<Json>) | JObj(fields: map<string, Json>)

  /** Python truthiness of a JSON value. */
  predicate Truthy(j: Json) {
    match j
    case JNull => false
    case JBool(b) => b
    case JInt(i) => i != 0
    case JStr(s) => s != ""
    case JList(xs) => xs != []
    case JObj(m) => m != map[]
  }

  /** `d.get(key, default)` on a JSON object. */
  function GetField(m: map<string, Json>, key: string, default: Json): (r: Json)
    ensures key in m ==> r == m[key]
    ensures key !in m ==> r == default
  {
    if key in m then m[key] else default
  }

  datatype HttpMethod = GET | POST

  /** What `session.request` is handed. */
  datatype Request = Request(httpMethod: HttpMethod, url: string, headers: map<string, string>,
                             params: map<string, Json>, json: Option<Json>)

  /** The server's answer: a body (its bytes as text, and what `resp.json()`
      makes of them), or a `RequestException` (a failed connection or an
      error status caught by `raise_for_status`). */
  datatype Response = Received(content: string, parsed: Json) | Failed(error: string)

  /** The catalogue: its answer to a request, given the requests it received
      before it, oldest first. */
  type Server = (seq<Request>, Request) -> Response

  // ---------------------------------------------------------------------
  // Authorization header (section 2 of RFC 7617)

  /** The user-pass string: the user-id, a colon, the password. */
  function Credentials(username: string, password: string): (r: string)
    ensures |r| == |username| + 1 + |password|
    ensures r[|username|] == ':' && r[..|username|] == username && r[|username| + 1..] == password
  {
    username + ":" + password
  }

  /** Where a receiver splits a user-pass string: at its first colon. */
  function FirstColon(s: string): (n: nat)
    ensures n <= |s|
    ensures n < |s| ==> s[n] == ':'
    ensures forall i :: 0 <= i < n ==> s[i] != ':'
    decreases |s|
  {
    if s == [] then 0 else if s[0] == ':' then 0 else 1 + FirstColon(s[1..])
  }

  /** A receiver recovers user-id and password from the user-pass string
      exactly when the user-id holds no colon, as the RFC requires. */
  lemma CredentialsSplit(username: string, password: string)
    requires ':' !in username
    ensures var s := Credentials(username, password);
      FirstColon(s) == |username| && s[..FirstColon(s)] == username && s[FirstColon(s) + 1..] == password
  {
    var s := Credentials(username, password);
    FirstColonAt(s, |username|);
  }

  lemma {:induction false} FirstColonAt(s: string, n: nat)
    requires n < |s| && s[n] == ':' && forall i :: 0 <= i < n ==> s[i] != ':'
    ensures FirstColon(s) == n
    decreases n
  {
    if n > 0 {
      FirstColonAt(s[1..], n - 1);
    }
  }

  /** The headers `__init__` sets: Basic credentials when both username and
      password are truthy, none otherwise. `b64` is Base64 encoding. */
  function AuthHeaders(username: Option<string>, password: Option<string>, b64: string -> string): (r: map<string, string>)
    ensures r.Keys <= {"Authorization"}
    ensures "Authorization" in r <==> Helpers.Truthy(username) && Helpers.Truthy(password)
    ensures "Authorization" in r ==>
      r["Authorization"] == "Basic " + b64(Credentials(username.value, password.value))
  {
    if Helpers.Truthy(username) && Helpers.Truthy(password) then
      map["Authorization" := "Basic " + b64(Credentials(username.value, password.value))]
    else map[]
  }

  /** Whoever holds a Base64 decoder gets the username and password back
      from the header, provided the username holds no colon. */
  lemma AuthHeaderRoundTrip(username: string, password: string, b64: string -> string, unb64: string -> string)
    requires username != "" && password != "" && ':' !in username
    requires forall s :: unb64(b64(s)) == s
    ensures var h := AuthHeaders(Some(username), Some(password), b64)["Authorization"];
      StartsWith(h, "Basic ") &&
      var s := unb64(h[6..]);
      s[..FirstColon(s)] == username && s[FirstColon(s) + 1..] == password
  {
    var h := AuthHeaders(Some(username), Some(password), b64)["Authorization"];
    assert h[6..] == b64(Credentials(username, password));
    CredentialsSplit(username, password);
  }

  /** The headers a request goes out with: the caller's, updated with the
      client's own, or the client's own when the caller passed none. */
  function MergeHeaders(caller: Option<map<string, string>>, own: map<string, string>): (r: map<string, string>)
    ensures r.Keys == own.Keys + (if caller.Some? then caller.value.Keys else {})
    ensures forall k :: k in own ==> r[k] == own[k]
    ensures caller.Some? ==> forall k :: k in caller.value && k !in own ==> r[k] == caller.value[k]
  {
    if caller.None? then own else caller.value + own
  }

  /** What `_request` returns for a response: the parsed body, None for an
      empty body; a failure is re-raised. */
  function Outcome(resp: Response): (r: Result<Option<Json>, string>)
    ensures r.Err? <==> resp.Failed?
    ensures r.Ok? ==> (r.value.None? <==> resp.content == "")
    ensures resp.Failed? ==> r == Err(resp.error)
    ensures resp.Received? && resp.content != "" ==> r == Ok(Some(resp.parsed))
  {
    match resp
    case Failed(e) => Err(e)
    case Received(content, parsed) => if content == "" then Ok(None) else Ok(Some(parsed))
  }

  // ---------------------------------------------------------------------
  // Query parameters and payloads

  /** `filter_games`' parameters: `platform_id` and `limit` when they are
      not None (JNull), then the keyword arguments on top; Python's keyword
      binding keeps those two names out of `kwargs`. */
  function FilterParams(platformId: Json, limit: Json, kwargs: map<string, Json>): (r: map<string, Json>)
    requires "platform_id" !in kwargs && "limit" !in kwargs
    ensures "platform_id" in r <==> platformId != JNull
    ensures "limit" in r <==> limit != JNull
    ensures platformId != JNull ==> r["platform_id"] == platformId
    ensures limit != JNull ==> r["limit"] == limit
    ensures forall k :: k in kwargs ==> k in r && r[k] == kwargs[k]
    ensures forall k :: k in r ==> k in kwargs || k == "platform_id" || k == "limit"
  {
    var withId: map<string, Json> := if platformId != JNull then map["platform_id" := platformId] else map[];
    var withLimit := if limit != JNull then withId["limit" := limit] else withId;
    withLimit + kwargs
  }

  /** The body `delete_games` posts. */
  function DeletePayload(gameIds: seq<Json>): (r: Json)
    ensures r.JObj? && r.fields.Keys == {"roms", "delete_from_fs"}
    ensures r.fields["roms"] == JList(gameIds) && r.fields["delete_from_fs"] == JList([])
  {
    JObj(map["roms" := JList(gameIds), "delete_from_fs" := JList([])])
  }

  /** The id `get_platform_by_slug` finds in a platform list: the first
      platform whose `fs_slug` equals the slug (a missing `fs_slug` reads as
      None); a list element that is not an object raises. */
  function FirstPlatformId(platforms: seq<Json>, slug: Json): (r: Result<Json, string>)
    decreases |platforms|
  {
    if platforms == [] then Ok(JNull)
    else if !platforms[0].JObj? then Err("AttributeError: 'get'")
    else if GetField(platforms[0].fields, "fs_slug", JNull) == slug then Ok(GetField(platforms[0].fields, "id", JNull))
    else FirstPlatformId(platforms[1..], slug)
  }

  /** The first matching platform decides, when every platform before it is an object. */
  lemma {:induction false} FirstPlatformIdFinds(platforms: seq<Json>, slug: Json, i: nat)
    requires i < |platforms| && platforms[i].JObj? && GetField(platforms[i].fields, "fs_slug", JNull) == slug
    requires forall j :: 0 <= j < i ==> platforms[j].JObj? && GetField(platforms[j].fields, "fs_slug", JNull) != slug
    ensures FirstPlatformId(platforms, slug) == Ok(GetField(platforms[i].fields, "id", JNull))
    decreases i
  {
    if i > 0 {
      FirstPlatformIdFinds(platforms[1..], slug, i - 1);
    }
  }

  /** A list of objects none of which matches yields None. */
  lemma {:induction false} FirstPlatformIdMisses(platforms: seq<Json>, slug: Json)
    requires forall j :: 0 <= j < |platforms| ==> platforms[j].JObj? && GetField(platforms[j].fields, "fs_slug", JNull) != slug
    ensures FirstPlatformId(platforms, slug) == Ok(JNull)
    decreases |platforms|
  {
    if platforms != [] {
      FirstPlatformIdMisses(platforms[1..], slug);
    }
  }

  /** `get_platform_by_slug` on what `get_platforms` returned: None for an
      empty or missing list; a truthy value that is not a list raises, since
      its elements (keys, characters) or the value itself has no `get`. */
  function PlatformIdFor(platforms: Option<Json>, slug: Json): (r: Result<Json, string>)
    ensures platforms.None? || !Truthy(platforms.value) ==> r == Ok(JNull)
  {
    if platforms.None? || !Truthy(platforms.value) then Ok(JNull)
    else match platforms.value
      case JList(items) => FirstPlatformId(items, slug)
      case _ => Err("AttributeError: 'get'")
  }

  // ---------------------------------------------------------------------
  // The client

  class RommApi {
    const username: Option<string>
    const password: Option<string>
    const slug: Json
    const url: string
    const headers: map<string, string>
    /** Every request handed to the session, oldest first. */
    var sent: seq<Request>

    /** `RommAPI()`, with the configuration values it imports as parameters. */
    constructor (username: Option<string>, password: Option<string>, slug: Json, url: string, b64: string -> string)
      ensures this.username == username && this.password == password && this.slug == slug && this.url == url
      ensures headers == AuthHeaders(username, password, b64)
      ensures sent == []
    {
      this.username := username;
      this.password := password;
      this.slug := slug;
      this.url := url;
      this.headers := AuthHeaders(username, password, b64);
      sent := [];
    }

    /** The request `_request(method, endpoint, ...)` hands to the session. */
    function RequestFor(httpMethod: HttpMethod, endpoint: string, callerHeaders: Option<map<string, string>>,
                        params: map<string, Json>, json: Option<Json>): (r: Request)
      ensures r.url == url + endpoint && r.headers == MergeHeaders(callerHeaders, headers)
      ensures r.httpMethod == httpMethod && r.params == params && r.json == json
    {
      Request(httpMethod, url + endpoint, MergeHeaders(callerHeaders, headers), params, json)
    }

    /** `_request`: send one request; `server` answers it after the
        requests sent before. */
    method Send(httpMethod: HttpMethod, endpoint: string, callerHeaders: Option<map<string, string>>,
                params: map<string, Json>, json: Option<Json>, server: Server)
      returns (r: Result<Option<Json>, string>)
      modifies this
      ensures sent == old(sent) + [RequestFor(httpMethod, endpoint, callerHeaders, params, json)]
      ensures r == Outcome(server(old(sent), RequestFor(httpMethod, endpoint, callerHeaders, params, json)))
    {
      var request := RequestFor(httpMethod, endpoint, callerHeaders, params, json);
      r := Outcome(server(sent, request));
      sent := sent + [request];
    }

    /** `delete_games(game_ids)`. */
    method DeleteGames(gameIds: seq<Json>, server: Server) returns (r: Result<Option<Json>, string>)
      modifies this
      ensures sent == old(sent) + [RequestFor(POST, "/api/roms/delete", None, map[], Some(DeletePayload(gameIds)))]
      ensures r == Outcome(server(old(sent), sent[|sent| - 1]))
    {
      r := Send(POST, "/api/roms/delete", None, map[], Some(DeletePayload(gameIds)), server);
    }

    /** `get_platforms()`. */
    method GetPlatforms(server: Server) returns (r: Result<Option<Json>, string>)
      modifies this
      ensures sent == old(sent) + [RequestFor(GET, "/api/platforms", None, map[], None)]
      ensures r == Outcome(server(old(sent), sent[|sent| - 1]))
    {
      r := Send(GET, "/api/platforms", None, map[], None, server);
    }

    /** `get_platform_by_slug()`: the loop with its early return. */
    method GetPlatformBySlug(server: Server) returns (r: Result<Json, string>)
      modifies this
      ensures sent == old(sent) + [RequestFor(GET, "/api/platforms", None, map[], None)]
      ensures var reply := Outcome(server(old(sent), sent[|sent| - 1]));
        r == if reply.Err? then Err(reply.error) else PlatformIdFor(reply.value, slug)
    {
      var reply := GetPlatforms(server);
      if reply.Err? {
        return Err(reply.error);
      }
      var platforms := reply.value;
      if platforms.None? || !Truthy(platforms.value) {
        return Ok(JNull);
      }
      if !platforms.value.JList? {
        return Err("AttributeError: 'get'");
      }
      var items := platforms.value.items;
      var i := 0;
      while i < |items|
        invariant 0 <= i <= |items|
        invariant FirstPlatformId(items, slug) == FirstPlatformId(items[i..], slug)
      {
        assert items[i..][1..] == items[i + 1..];
        if !items[i].JObj? {
          return Err("AttributeError: 'get'");
        }
        if GetField(items[i].fields, "fs_slug", JNull) == slug {
          return Ok(GetField(items[i].fields, "id", JNull));
        }
        i := i + 1;
      }
      return Ok(JNull);
    }

    /** `filter_games(platform_id, limit, **kwargs)`. */
    method FilterGames(platformId: Json, limit: Json, kwargs: map<string, Json>, server: Server)
      returns (r: Result<Option<Json>, string>)
      requires "platform_id" !in kwargs && "limit" !in kwargs
      modifies this
      ensures sent == old(sent) + [RequestFor(GET, "/api/roms", None, FilterParams(platformId, limit, kwargs), None)]
      ensures r == Outcome(server(old(sent), sent[|sent| - 1]))
    {
      r := Send(GET, "/api/roms", None, FilterParams(platformId, limit, kwargs), None, server);
    }
  }
}
