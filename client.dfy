/** `BrawlStarsClient` (src/client.ts): construction, tag encoding, the ten
    endpoint requests and the call through an abstract transport. */
module Client {
  import opened Wrappers
  import opened Types
  import Uri
  import Decimal
  import Paths
  import Errors

  const DefaultBaseUrl := "https://api.brawlstars.com/v1"
  const MissingKeyMessage := "API key is required to interact with the Brawl Stars API."
  const BearerPrefix := "Bearer "

  /** The configuration of the transport handle, fixed at construction. */
  datatype Client = Client(baseUrl: string, authorization: string, accept: string)

  datatype ConfigurationError = ConfigurationError(message: string)

  /** The constructor. `None` stands for an absent argument: an absent key is
      refused like an empty one, and an absent base URL means the default. */
  function NewClient(apiKey: Option<string>, baseUrl: Option<string>): (r: Result<Client, ConfigurationError>)
    ensures r.Err? <==> apiKey == None || apiKey == Some("")
    ensures r.Err? ==> r.error.message == MissingKeyMessage
    ensures r.Ok? ==> r.value.authorization == BearerPrefix + apiKey.value
    ensures r.Ok? ==> r.value.accept == "application/json"
    ensures r.Ok? ==> r.value.baseUrl == if baseUrl.Some? then baseUrl.value else DefaultBaseUrl
  {
    if apiKey.None? || apiKey.value == "" then Err(ConfigurationError(MissingKeyMessage))
    else
      var url := if baseUrl.Some? then baseUrl.value else DefaultBaseUrl;
      Ok(Client(url, BearerPrefix + apiKey.value, "application/json"))
  }

  /** The credential inside an authorization header. */
  function Credential(authorization: string): Option<string> {
    if |authorization| >= |BearerPrefix| && authorization[..|BearerPrefix|] == BearerPrefix
    then Some(authorization[|BearerPrefix|..])
    else None
  }

  /** A constructed client carries exactly the key it was given, so two
      clients built from different keys send different headers. */
  lemma CredentialKept(apiKey: Option<string>, baseUrl: Option<string>)
    requires NewClient(apiKey, baseUrl).Ok?
    ensures Credential(NewClient(apiKey, baseUrl).value.authorization) == apiKey
  {
    var h := NewClient(apiKey, baseUrl).value.authorization;
    assert h[..|BearerPrefix|] == BearerPrefix;
    assert h[|BearerPrefix|..] == apiKey.value;
  }

  // ----- tags -----

  /** Drops one leading `#`, if there is one. */
  function StripHash(tag: string): string {
    if |tag| >= 1 && tag[0] == '#' then tag[1..] else tag
  }

  /** `encodeTag`: one leading `#` stripped, the rest through
      `encodeURIComponent`. The result is always a single path segment with
      no query or fragment in it. */
  function EncodeTag(tag: string): (r: string)
    ensures Uri.IsEncoded(r)
    ensures '/' !in r && '?' !in r && '#' !in r
  {
    var r := Uri.EncodeURIComponent(StripHash(tag));
    Uri.EncodedHasNoDelimiters(r);
    r
  }

  /** A tag with its `#` and without it give the same encoding. */
  lemma EncodeTagWithHash(t: string)
    requires t == [] || t[0] != '#'
    ensures EncodeTag("#" + t) == EncodeTag(t)
  {
    assert ("#" + t)[1..] == t;
  }

  /** Only one `#` is stripped: `##X` keeps its second `#`, encoded as `%23`. */
  lemma EncodeTagStripsOneHash(x: string)
    ensures EncodeTag("##" + x) == "%23" + Uri.EncodeURIComponent(x)
  {
    var s := ("##" + x)[1..];
    assert s == "#" + x;
    assert s[1..] == x;
    assert Uri.EncodeURIComponent(s) == Uri.EncodeChar('#') + Uri.EncodeURIComponent(x);
    assert Uri.Utf8('#') == [0x23];
    assert Uri.EncodeChar('#') == "%23";
  }

  /** The encoded tag decodes to the tag without its first `#`. */
  lemma EncodeTagRoundTrip(tag: string)
    ensures Uri.DecodeComponent(EncodeTag(tag)) == Some(StripHash(tag))
  {
    Uri.EncodeRoundTrip(StripHash(tag));
  }

  // ----- endpoints -----

  /** A brawler identifier: a number or a string. */
  datatype BrawlerId = NumericId(n: int) | TextId(s: string)

  /** A numeric id is written as its decimal text (canonical, so by
      `Decimal.CanonicalUnique` the only text of that form for the number);
      a string id is used as it is. */
  function IdString(id: BrawlerId): (r: string)
    ensures id.TextId? ==> r == id.s
    ensures id.NumericId? ==> Decimal.ParseInt(r) == Some(id.n) && Decimal.IsCanonical(r)
    ensures id.NumericId? ==> Paths.IsSegment(r)
  {
    match id
    case NumericId(n) =>
      var r := Decimal.IntToString(n);
      Decimal.IntRoundTrip(n);
      assert forall i :: 0 <= i < |r| ==> r[i] != '/';
      r
    case TextId(s) => s
  }

  /** One public method of the client with its arguments. */
  datatype Endpoint =
    | GetPlayer(playerTag: string)
    | GetPlayerBattleLog(playerTag: string)
    | GetClub(clubTag: string)
    | GetClubMembers(clubTag: string, options: Option<PagingOptions>)
    | GetBrawlers(options: Option<PagingOptions>)
    | GetBrawler(brawlerId: BrawlerId)
    | GetPlayerRankings(countryCode: string, options: Option<PagingOptions>)
    | GetClubRankings(countryCode: string, options: Option<PagingOptions>)
    | GetBrawlerRankings(countryCode: string, brawlerId: BrawlerId, options: Option<PagingOptions>)
    | GetEventRotation

  /** The endpoints that forward the caller's paging options. */
  predicate IsPaged(e: Endpoint) {
    e.GetClubMembers? || e.GetBrawlers? || e.GetPlayerRankings? || e.GetClubRankings? || e.GetBrawlerRankings?
  }

  datatype Method = Get

  /** What `_request` hands to the transport: the paging options object is
      passed as `params` as it is. */
  datatype HttpRequest = HttpRequest(verb: Method, url: string, params: Option<PagingOptions>)

  /** The request each endpoint method builds, with the source's path
      templates. */
  function RequestOf(e: Endpoint): (r: HttpRequest)
    ensures r.verb == Get
    ensures IsPaged(e) ==> r.params == e.options
    ensures !IsPaged(e) ==> r.params == None
    ensures |r.url| >= 1 && r.url[0] == '/'
  {
    match e
    case GetPlayer(tag) => HttpRequest(Get, "/players/%23" + EncodeTag(tag), None)
    case GetPlayerBattleLog(tag) => HttpRequest(Get, "/players/%23" + EncodeTag(tag) + "/battlelog", None)
    case GetClub(tag) => HttpRequest(Get, "/clubs/%23" + EncodeTag(tag), None)
    case GetClubMembers(tag, options) => HttpRequest(Get, "/clubs/%23" + EncodeTag(tag) + "/members", options)
    case GetBrawlers(options) => HttpRequest(Get, "/brawlers", options)
    case GetBrawler(id) => HttpRequest(Get, "/brawlers/" + IdString(id), None)
    case GetPlayerRankings(cc, options) => HttpRequest(Get, "/rankings/" + cc + "/players", options)
    case GetClubRankings(cc, options) => HttpRequest(Get, "/rankings/" + cc + "/clubs", options)
    case GetBrawlerRankings(cc, id, options) =>
      HttpRequest(Get, "/rankings/" + cc + "/brawlers/" + IdString(id), options)
    case GetEventRotation => HttpRequest(Get, "/events/rotation", None)
  }

  /** The endpoint table written as path segments: the reference the path
      templates are checked against. */
  function Segments(e: Endpoint): (r: seq<string>)
    ensures |r| >= 2 && r[0] == ""
  {
    match e
    case GetPlayer(tag) => ["", "players", "%23" + EncodeTag(tag)]
    case GetPlayerBattleLog(tag) => ["", "players", "%23" + EncodeTag(tag), "battlelog"]
    case GetClub(tag) => ["", "clubs", "%23" + EncodeTag(tag)]
    case GetClubMembers(tag, _) => ["", "clubs", "%23" + EncodeTag(tag), "members"]
    case GetBrawlers(_) => ["", "brawlers"]
    case GetBrawler(id) => ["", "brawlers", IdString(id)]
    case GetPlayerRankings(cc, _) => ["", "rankings", cc, "players"]
    case GetClubRankings(cc, _) => ["", "rankings", cc, "clubs"]
    case GetBrawlerRankings(cc, id, _) => ["", "rankings", cc, "brawlers", IdString(id)]
    case GetEventRotation => ["", "events", "rotation"]
  }

  /** The two templates of a tag resource: `/<resource>/%23<tag>` and the
      same path with one more segment. */
  lemma TagPaths(prefix: string, resource: string, x: string, suffix: string, sub: string)
    requires prefix == "/" + resource + "/%23" && suffix == "/" + sub
    ensures prefix + x == Paths.Join(["", resource, "%23" + x])
    ensures prefix + x + suffix == Paths.Join(["", resource, "%23" + x, sub])
  {
    assert prefix + x == "" + "/" + resource + "/" + ("%23" + x);
    Paths.Join3("", resource, "%23" + x);
    Paths.Join4("", resource, "%23" + x, sub);
  }

  lemma PlayerTemplates(tag: string)
    ensures RequestOf(GetPlayer(tag)).url == Paths.Join(Segments(GetPlayer(tag)))
    ensures RequestOf(GetPlayerBattleLog(tag)).url == Paths.Join(Segments(GetPlayerBattleLog(tag)))
  {
    TagPaths("/players/%23", "players", EncodeTag(tag), "/battlelog", "battlelog");
  }

  lemma ClubTemplates(tag: string, options: Option<PagingOptions>)
    ensures RequestOf(GetClub(tag)).url == Paths.Join(Segments(GetClub(tag)))
    ensures RequestOf(GetClubMembers(tag, options)).url == Paths.Join(Segments(GetClubMembers(tag, options)))
  {
    TagPaths("/clubs/%23", "clubs", EncodeTag(tag), "/members", "members");
  }

  lemma BrawlerPaths(id: string)
    ensures "/brawlers" == Paths.Join(["", "brawlers"])
    ensures "/brawlers/" + id == Paths.Join(["", "brawlers", id])
    ensures "/events/rotation" == Paths.Join(["", "events", "rotation"])
  {
    Paths.Join2("", "brawlers");
    Paths.Join3("", "brawlers", id);
    Paths.Join3("", "events", "rotation");
  }

  lemma RankingPaths(cc: string, id: string)
    ensures "/rankings/" + cc + "/players" == Paths.Join(["", "rankings", cc, "players"])
    ensures "/rankings/" + cc + "/clubs" == Paths.Join(["", "rankings", cc, "clubs"])
    ensures "/rankings/" + cc + "/brawlers/" + id == Paths.Join(["", "rankings", cc, "brawlers", id])
  {
    assert "/rankings/" == "" + "/" + "rankings" + "/";
    assert "/players" == "/" + "players";
    assert "/clubs" == "/" + "clubs";
    assert "/brawlers/" == "/" + "brawlers" + "/";
    Paths.Join4("", "rankings", cc, "players");
    Paths.Join4("", "rankings", cc, "clubs");
    Paths.Join5("", "rankings", cc, "brawlers", id);
  }

  /** Every path is its segments joined by `/`. */
  lemma PathIsJoinedSegments(e: Endpoint)
    ensures RequestOf(e).url == Paths.Join(Segments(e))
  {
    match e
    case GetPlayer(tag) => PlayerTemplates(tag);
    case GetPlayerBattleLog(tag) => PlayerTemplates(tag);
    case GetClub(tag) => ClubTemplates(tag, None);
    case GetClubMembers(tag, options) => ClubTemplates(tag, options);
    case GetBrawlers(_) => BrawlerPaths("");
    case GetBrawler(id) => BrawlerPaths(IdString(id));
    case GetPlayerRankings(cc, _) => RankingPaths(cc, "");
    case GetClubRankings(cc, _) => RankingPaths(cc, "");
    case GetBrawlerRankings(cc, id, _) => RankingPaths(cc, IdString(id));
    case GetEventRotation => BrawlerPaths("");
  }

  /** The player tag `#ABC123` gives the path `/players/%23ABC123`. */
  lemma PlayerPathExample(tag: string)
    requires tag == "#ABC123"
    ensures RequestOf(GetPlayer(tag)).url == "/players/%23ABC123"
  {
    var x := StripHash(tag);
    assert x == "ABC123";
    assert forall i :: 0 <= i < |x| ==> Uri.IsUnreserved(x[i]);
    Uri.EncodeIdentity(x);
    assert "/players/%23" + x == "/players/%23ABC123";
  }

  /** The caller-supplied pieces that are interpolated raw (country codes and
      string brawler ids) hold no `/`. This is about the path string handed
      to the HTTP library; a `?` or `#` in a raw piece is left in that string
      too, and the library would read it as the start of a query or a
      fragment, which this model does not follow further. */
  predicate HasPlainArguments(e: Endpoint) {
    match e
    case GetBrawler(id) => id.TextId? ==> Paths.IsSegment(id.s)
    case GetPlayerRankings(cc, _) => Paths.IsSegment(cc)
    case GetClubRankings(cc, _) => Paths.IsSegment(cc)
    case GetBrawlerRankings(cc, id, _) => Paths.IsSegment(cc) && (id.TextId? ==> Paths.IsSegment(id.s))
    case _ => true
  }

  /** A tag never adds path segments: the path of a tag endpoint splits into
      exactly its template's segments, whatever the tag holds. The same holds
      for the other endpoints when their raw arguments hold no `/`. */
  lemma PathSegments(e: Endpoint)
    requires HasPlainArguments(e)
    ensures Paths.Split(RequestOf(e).url) == Segments(e)
  {
    PathIsJoinedSegments(e);
    SegmentsArePlain(e);
    Paths.SplitJoin(Segments(e));
  }

  lemma SegmentsArePlain(e: Endpoint)
    requires HasPlainArguments(e)
    ensures forall i :: 0 <= i < |Segments(e)| ==> Paths.IsSegment(Segments(e)[i])
  {
    var segs := Segments(e);
    assert Paths.IsSegment(segs[0]) && Paths.IsSegment(segs[1]);
    if e.GetPlayer? || e.GetPlayerBattleLog? || e.GetClub? || e.GetClubMembers? {
      assert Paths.IsSegment(segs[2]);
    }
  }

  // ----- query parameters -----

  /** The query parameters the transport sends for a `params` object: one
      per present field, none for an absent field; a limit is sent as its
      decimal text. */
  function QueryParams(params: Option<PagingOptions>): (q: map<string, string>)
    ensures q.Keys <= {"limit", "after", "before"}
    ensures "limit" in q <==> params.Some? && params.value.limit.Some?
    ensures "after" in q <==> params.Some? && params.value.after.Some?
    ensures "before" in q <==> params.Some? && params.value.before.Some?
    ensures "limit" in q ==> Decimal.ParseInt(q["limit"]) == params.value.limit
    ensures "after" in q ==> Some(q["after"]) == params.value.after
    ensures "before" in q ==> Some(q["before"]) == params.value.before
  {
    match params
    case None => map[]
    case Some(p) =>
      var withLimit: map<string, string> :=
        if p.limit.Some? then
          Decimal.IntRoundTrip(p.limit.value);
          map["limit" := Decimal.IntToString(p.limit.value)]
        else map[];
      var withAfter := if p.after.Some? then withLimit["after" := p.after.value] else withLimit;
      var q := if p.before.Some? then withAfter["before" := p.before.value] else withAfter;
      q
  }

  /** Reads query parameters back into paging options. */
  function OptionsOfQuery(q: map<string, string>): Option<PagingOptions> {
    var limit := if "limit" in q then Decimal.ParseInt(q["limit"]) else None;
    if "limit" in q && limit.None? then None
    else
      Some(PagingOptions(limit,
        if "after" in q then Some(q["after"]) else None,
        if "before" in q then Some(q["before"]) else None))
  }

  /** The query carries exactly the caller's paging options, so nothing is
      lost or invented on the way. */
  lemma QueryRoundTrip(p: PagingOptions)
    ensures OptionsOfQuery(QueryParams(Some(p))) == Some(p)
  {
  }

  // ----- the call -----

  /** A transport: what the network does to one request sent through a
      client's handle. */
  type Transport<E> = (Client, HttpRequest) -> Errors.Outcome<E>

  /** One endpoint call: one request through the client's transport, and the
      outcome normalised. It succeeds exactly when the transport delivers a
      body, and then returns that body; it fails with a normalised error only
      for an error the HTTP library reports, and re-raises anything else
      unwrapped. */
  function Call<E>(client: Client, send: Transport<E>, e: Endpoint): (r: Result<Json, Errors.Failure<E>>)
    ensures r.Ok? <==> send(client, RequestOf(e)).Received?
    ensures r.Ok? ==> r.value == send(client, RequestOf(e)).body
    ensures r.Err? && r.error.Api? <==> send(client, RequestOf(e)).LibraryError?
    ensures send(client, RequestOf(e)).OtherError? ==> r == Err(Errors.Rethrown(send(client, RequestOf(e)).thrown))
  {
    Errors.Normalize(send(client, RequestOf(e)))
  }

  /** A call depends only on what the transport answers to this call's own
      request: there is no state shared between calls. */
  lemma CallsAreIndependent<E>(client: Client, send1: Transport<E>, send2: Transport<E>, e: Endpoint)
    requires send1(client, RequestOf(e)) == send2(client, RequestOf(e))
    ensures Call(client, send1, e) == Call(client, send2, e)
  {
  }

  /** On success the body comes back unchanged: a list keeps its items and
      paging cursors as the server sent them. */
  lemma CallReturnsBody<E>(client: Client, send: Transport<E>, e: Endpoint)
    requires send(client, RequestOf(e)).Received?
    ensures Call(client, send, e) == Ok(send(client, RequestOf(e)).body)
  {
  }
}
