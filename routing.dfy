/** Reading a request back into the endpoint call that built it. This is the
    inverse of `Client.RequestOf`, and shows that the request the client
    sends identifies the call: which endpoint, which tag, id or country code,
    and which paging options. */
module Routing {
  import opened Wrappers
  import opened Types
  import Uri
  import Paths
  import opened Client

  /** An endpoint call up to what the request cannot tell apart: the first
      `#` of a tag is optional, and a numeric brawler id is sent as its
      decimal text. */
  function Canonical(e: Endpoint): Endpoint {
    match e
    case GetPlayer(tag) => GetPlayer("#" + StripHash(tag))
    case GetPlayerBattleLog(tag) => GetPlayerBattleLog("#" + StripHash(tag))
    case GetClub(tag) => GetClub("#" + StripHash(tag))
    case GetClubMembers(tag, options) => GetClubMembers("#" + StripHash(tag), options)
    case GetBrawler(id) => GetBrawler(TextId(IdString(id)))
    case GetBrawlerRankings(cc, id, options) => GetBrawlerRankings(cc, TextId(IdString(id)), options)
    case _ => e
  }

  /** The tag in a `%23`-prefixed path segment, with its `#` put back. */
  function TagOfSegment(segment: string): Option<string> {
    if |segment| >= 3 && segment[..3] == "%23" then
      match Uri.DecodeComponent(segment[3..])
      case None => None
      case Some(t) => Some("#" + t)
    else None
  }

  function RouteTag(segment: string, params: Option<PagingOptions>, kind: string): Option<Endpoint> {
    match TagOfSegment(segment)
    case None => None
    case Some(tag) =>
      if kind == "player" && params.None? then Some(GetPlayer(tag))
      else if kind == "battlelog" && params.None? then Some(GetPlayerBattleLog(tag))
      else if kind == "club" && params.None? then Some(GetClub(tag))
      else if kind == "members" then Some(GetClubMembers(tag, params))
      else None
  }

  /** The endpoint call whose request this is, if any. */
  function Route(r: HttpRequest): Option<Endpoint> {
    RouteSegments(Paths.Split(r.url), r)
  }

  function RouteSegments(segs: seq<string>, r: HttpRequest): Option<Endpoint> {
    var n := |segs|;
    if n < 2 || segs[0] != "" then None
    else if segs[1] == "players" && n == 3 then RouteTag(segs[2], r.params, "player")
    else if segs[1] == "players" && n == 4 && segs[3] == "battlelog" then RouteTag(segs[2], r.params, "battlelog")
    else if segs[1] == "clubs" && n == 3 then RouteTag(segs[2], r.params, "club")
    else if segs[1] == "clubs" && n == 4 && segs[3] == "members" then RouteTag(segs[2], r.params, "members")
    else if segs[1] == "brawlers" && n == 2 then Some(GetBrawlers(r.params))
    else if segs[1] == "brawlers" && n == 3 && r.params.None? then Some(GetBrawler(TextId(segs[2])))
    else if segs[1] == "rankings" && n == 4 && segs[3] == "players" then Some(GetPlayerRankings(segs[2], r.params))
    else if segs[1] == "rankings" && n == 4 && segs[3] == "clubs" then Some(GetClubRankings(segs[2], r.params))
    else if segs[1] == "rankings" && n == 5 && segs[3] == "brawlers" then
      Some(GetBrawlerRankings(segs[2], TextId(segs[4]), r.params))
    else if segs[1] == "events" && n == 3 && segs[2] == "rotation" && r.params.None? then Some(GetEventRotation)
    else None
  }

  /** Canonicalising a call does not change its request. */
  lemma RequestOfCanonical(e: Endpoint)
    ensures RequestOf(Canonical(e)) == RequestOf(e)
  {
    match e
    case GetPlayer(tag) => HashedTag(tag);
    case GetPlayerBattleLog(tag) => HashedTag(tag);
    case GetClub(tag) => HashedTag(tag);
    case GetClubMembers(tag, _) => HashedTag(tag);
    case _ =>
  }

  lemma HashedTag(tag: string)
    ensures EncodeTag("#" + StripHash(tag)) == EncodeTag(tag)
  {
    assert ("#" + StripHash(tag))[1..] == StripHash(tag);
  }

  lemma TagSegmentRoundTrip(tag: string)
    ensures TagOfSegment("%23" + EncodeTag(tag)) == Some("#" + StripHash(tag))
  {
    var segment := "%23" + EncodeTag(tag);
    assert segment[..3] == "%23" && segment[3..] == EncodeTag(tag);
    EncodeTagRoundTrip(tag);
  }

  /** Routing a request recovers the call that built it, provided the country
      code and a string brawler id hold no `/`; tags need no such condition. */
  lemma RouteRoundTrip(e: Endpoint)
    requires HasPlainArguments(e)
    ensures Route(RequestOf(e)) == Some(Canonical(e))
  {
    match e
    case GetPlayer(tag) => RoutePlayer(tag);
    case GetPlayerBattleLog(tag) => RoutePlayerBattleLog(tag);
    case GetClub(tag) => RouteClub(tag);
    case GetClubMembers(tag, options) => RouteClubMembers(tag, options);
    case GetBrawlers(options) => RouteBrawlers(options);
    case GetBrawler(id) => RouteBrawler(id);
    case GetPlayerRankings(cc, options) => RoutePlayerRankings(cc, options);
    case GetClubRankings(cc, options) => RouteClubRankings(cc, options);
    case GetBrawlerRankings(cc, id, options) => RouteBrawlerRankings(cc, id, options);
    case GetEventRotation => RouteEventRotation(e);
  }

  lemma RoutePlayer(tag: string)
    requires HasPlainArguments(GetPlayer(tag))
    ensures Route(RequestOf(GetPlayer(tag))) == Some(Canonical(GetPlayer(tag)))
  {
    PathSegments(GetPlayer(tag));
    TagSegmentRoundTrip(tag);
  }

  lemma RoutePlayerBattleLog(tag: string)
    requires HasPlainArguments(GetPlayerBattleLog(tag))
    ensures Route(RequestOf(GetPlayerBattleLog(tag))) == Some(Canonical(GetPlayerBattleLog(tag)))
  {
    PathSegments(GetPlayerBattleLog(tag));
    TagSegmentRoundTrip(tag);
  }

  lemma RouteClub(tag: string)
    requires HasPlainArguments(GetClub(tag))
    ensures Route(RequestOf(GetClub(tag))) == Some(Canonical(GetClub(tag)))
  {
    PathSegments(GetClub(tag));
    TagSegmentRoundTrip(tag);
  }

  lemma RouteClubMembers(tag: string, options: Option<PagingOptions>)
    requires HasPlainArguments(GetClubMembers(tag, options))
    ensures Route(RequestOf(GetClubMembers(tag, options))) == Some(Canonical(GetClubMembers(tag, options)))
  {
    PathSegments(GetClubMembers(tag, options));
    TagSegmentRoundTrip(tag);
  }

  lemma RouteBrawlers(options: Option<PagingOptions>)
    requires HasPlainArguments(GetBrawlers(options))
    ensures Route(RequestOf(GetBrawlers(options))) == Some(Canonical(GetBrawlers(options)))
  {
    PathSegments(GetBrawlers(options));
  }

  lemma RouteBrawler(id: BrawlerId)
    requires HasPlainArguments(GetBrawler(id))
    ensures Route(RequestOf(GetBrawler(id))) == Some(Canonical(GetBrawler(id)))
  {
    PathSegments(GetBrawler(id));
  }

  lemma RoutePlayerRankings(cc: string, options: Option<PagingOptions>)
    requires HasPlainArguments(GetPlayerRankings(cc, options))
    ensures Route(RequestOf(GetPlayerRankings(cc, options))) == Some(Canonical(GetPlayerRankings(cc, options)))
  {
    PathSegments(GetPlayerRankings(cc, options));
  }

  lemma RouteClubRankings(cc: string, options: Option<PagingOptions>)
    requires HasPlainArguments(GetClubRankings(cc, options))
    ensures Route(RequestOf(GetClubRankings(cc, options))) == Some(Canonical(GetClubRankings(cc, options)))
  {
    PathSegments(GetClubRankings(cc, options));
  }

  lemma RouteBrawlerRankings(cc: string, id: BrawlerId, options: Option<PagingOptions>)
    requires HasPlainArguments(GetBrawlerRankings(cc, id, options))
    ensures Route(RequestOf(GetBrawlerRankings(cc, id, options))) == Some(Canonical(GetBrawlerRankings(cc, id, options)))
  {
    PathSegments(GetBrawlerRankings(cc, id, options));
  }

  lemma RouteEventRotation(e: Endpoint)
    requires e.GetEventRotation?
    ensures Route(RequestOf(e)) == Some(Canonical(e))
  {
    var r := RequestOf(e);
    FixedPathSplit(r.url);
    RouteEventSegments(r);
  }

  lemma RouteEventSegments(r: HttpRequest)
    requires r.params.None?
    ensures RouteSegments(["", "events", "rotation"], r) == Some(GetEventRotation)
  {
  }

  lemma FixedPathSplit(s: string)
    requires s == "/events/rotation"
    ensures Paths.Split(s) == ["", "events", "rotation"]
  {
    assert s == "/" + "events" + "/" + "rotation";
    Paths.SplitRooted("events", "rotation");
  }

  /** Two calls send the same request exactly when they are the same call up
      to the optional `#` and the form of the brawler id. */
  lemma RequestsIdentifyCalls(e1: Endpoint, e2: Endpoint)
    requires HasPlainArguments(e1) && HasPlainArguments(e2)
    ensures RequestOf(e1) == RequestOf(e2) <==> Canonical(e1) == Canonical(e2)
  {
    RouteRoundTrip(e1);
    RouteRoundTrip(e2);
    RequestOfCanonical(e1);
    RequestOfCanonical(e2);
  }

  /** Country codes are interpolated raw: without the condition above, two
      different calls can send the same path. */
  lemma RawCountryCodeCollision()
    ensures RequestOf(GetPlayerRankings("x/brawlers/5", None)) == RequestOf(GetBrawlerRankings("x", TextId("5/players"), None))
  {
  }
}
