/**
 * The four request handlers of internal/httpapi/server.go. `Judge`, `EventOf` and `ResponseOf` say what a request
 * deserves; ApiServer performs the steps and their effects on the audit publisher and the response writer.
 */
module HttpApi {
  import opened Common
  import opened Text
  import opened Encoding
  import opened KeyRecords
  import opened Verifier

  // ---------------------------------------------------------------- requests and their surroundings

  /** A parsed, unmapped IP address with what net/netip says about it. */
  datatype Addr = Addr(text: string, globalUnicast: bool, isPrivate: bool, loopback: bool, linkLocal: bool)

  predicate PublicTarget(a: Addr) {
    a.globalUnicast && !a.isPrivate && !a.loopback && !a.linkLocal
  }

  /** What the handlers only pass through to the response. */
  datatype Details = Details(place: seq<string>, asn: nat, asnOrganization: string, network: string)

  /** A lookup result: the fields the handlers look at, and the rest. */
  datatype Geo = Geo(
    countryCode: string, country: string, cityVersion: string, asnVersion: string, details: Details)

  const NoGeo := Geo("", "", "", "", Details([], 0, "", ""))

  datatype LookupAnswer = Found(geo: Geo) | Absent(geo: Geo) | Failed

  datatype Route = Country | LookupPost | LookupGet | Me

  datatype Body = Unreadable | Content(bytes: Bytes)

  datatype Request = Request(
    id: string, authorization: string, body: Body, queryIP: string, cfIP: string, forwardedFor: string,
    remoteAddr: string)

  /** What strict decoding of a body yields: an ip field, and whether more JSON follows the object. */
  datatype Document = Undecodable | IPField(ip: string, trailing: bool)

  /** Library calls with a fixed meaning. */
  datatype Library = Library(
    decode: Bytes -> Document, parseAddr: string -> Option<Addr>, hostOf: string -> string, mac: string -> string)

  datatype IPMode = Raw | Hmac | Omitted

  datatype Config = Config(ipMode: IPMode, maxBodyBytes: nat, allowPrivateIPs: bool)

  /** What the surroundings do during one request; the database may be reloaded between lookup and publishing. */
  datatype World = World(lookup: Addr -> LookupAnswer, versionAtPublish: string, latencyUS: nat, auditAccepts: bool)

  // ---------------------------------------------------------------- the verdict on a request

  datatype Outcome =
    | Unauthorized | InvalidRequest | RequestTooLarge | InvalidIP | DisallowedIP | ClientIPUnavailable
    | LookupError | NotFound | Success

  function StatusCode(o: Outcome): nat {
    match o
    case Unauthorized => 401
    case InvalidRequest => 400
    case RequestTooLarge => 413
    case InvalidIP => 422
    case DisallowedIP => 422
    case ClientIPUnavailable => 400
    case LookupError => 500
    case NotFound => 404
    case Success => 200
  }

  /** Outcomes of a performed lookup: they are answered as such only once the audit event is durable. */
  predicate NeedsDurableAudit(o: Outcome) {
    o.LookupError? || o.NotFound? || o.Success?
  }

  /** The address a request asks about, or why there is none. */
  datatype Target = Aim(ip: Addr) | Refuse(outcome: Outcome, known: Option<Addr>)

  function Vet(cfg: Config, ip: Addr): Target {
    if !cfg.allowPrivateIPs && !PublicTarget(ip) then Refuse(DisallowedIP, Some(ip)) else Aim(ip)
  }

  function ParseTarget(cfg: Config, lib: Library, raw: string): Target {
    match lib.parseAddr(TrimSpace(raw))
    case None => Refuse(InvalidIP, None)
    case Some(ip) => Vet(cfg, ip)
  }

  function JsonTarget(cfg: Config, lib: Library, body: Body): Target {
    if body.Unreadable? then Refuse(InvalidRequest, None)
    else if |body.bytes| > cfg.maxBodyBytes then Refuse(RequestTooLarge, None)
    else
      match lib.decode(body.bytes)
      case Undecodable => Refuse(InvalidRequest, None)
      case IPField(ip, trailing) =>
        if ip == "" || trailing then Refuse(InvalidRequest, None) else ParseTarget(cfg, lib, ip)
  }

  function FirstForwardedFor(v: string): string {
    match Cut(v, ',')
    case None => TrimSpace(v)
    case Some(halves) => TrimSpace(halves.0)
  }

  /** Cloudflare's header if it parses, else the first forwarded hop if it parses, else the peer address. */
  function ClientIP(lib: Library, r: Request): Option<Addr> {
    var cf := if r.cfIP == "" then None else lib.parseAddr(TrimSpace(r.cfIP));
    var hop := FirstForwardedFor(r.forwardedFor);
    var forwarded := if hop == "" then None else lib.parseAddr(TrimSpace(hop));
    if cf.Some? then cf
    else if forwarded.Some? then forwarded
    else lib.parseAddr(TrimSpace(lib.hostOf(r.remoteAddr)))
  }

  function TargetOf(cfg: Config, lib: Library, route: Route, r: Request): Target {
    match route
    case Country => JsonTarget(cfg, lib, r.body)
    case LookupPost => JsonTarget(cfg, lib, r.body)
    case LookupGet =>
      if TrimSpace(r.queryIP) == "" then Refuse(InvalidRequest, None)
      else ParseTarget(cfg, lib, TrimSpace(r.queryIP))
    case Me =>
      match ClientIP(lib, r)
      case None => Refuse(ClientIPUnavailable, None)
      case Some(ip) => Vet(cfg, ip)
  }

  datatype Verdict = Verdict(outcome: Outcome, caller: string, ip: Option<Addr>, geo: Geo, latencyUS: nat)

  function Judge(cfg: Config, lib: Library, caller: Option<string>, route: Route, r: Request, world: World): Verdict {
    if caller.None? then Verdict(Unauthorized, "unauthenticated", None, NoGeo, 0)
    else
      match TargetOf(cfg, lib, route, r)
      case Refuse(outcome, ip) => Verdict(outcome, caller.value, ip, NoGeo, 0)
      case Aim(ip) =>
        match world.lookup(ip)
        case Failed => Verdict(LookupError, caller.value, Some(ip), NoGeo, world.latencyUS)
        case Absent(geo) => Verdict(NotFound, caller.value, Some(ip), geo, world.latencyUS)
        case Found(geo) =>
          var outcome := if route.Country? && geo.country == "" then NotFound else Success;
          Verdict(outcome, caller.value, Some(ip), geo, world.latencyUS)
  }

  datatype AuditEvent = AuditEvent(
    requestID: string, callerID: string, ipValue: string, ipMode: IPMode, countryCode: string, country: string,
    outcome: Outcome, statusCode: nat, latencyUS: nat, mmdbVersion: string)

  function IPValue(cfg: Config, lib: Library, ip: Addr): string {
    match cfg.ipMode
    case Raw => ip.text
    case Hmac => lib.mac(ip.text)
    case Omitted => ""
  }

  function PairVersion(city: string, asn: string): string {
    "city=" + city + ";asn=" + asn
  }

  /** The pair the result carries, or the live version when it carries none. */
  function AuditVersion(geo: Geo, live: string): string {
    var city, asn := TrimSpace(geo.cityVersion), TrimSpace(geo.asnVersion);
    if city == "" && asn == "" then live else PairVersion(city, asn)
  }

  function EventOf(cfg: Config, lib: Library, r: Request, v: Verdict, world: World): AuditEvent {
    AuditEvent(r.id, v.caller, if v.ip.Some? then IPValue(cfg, lib, v.ip.value) else "", cfg.ipMode,
               v.geo.countryCode, v.geo.country, v.outcome, StatusCode(v.outcome), v.latencyUS,
               AuditVersion(v.geo, world.versionAtPublish))
  }

  datatype Payload =
    | CountryOnly(country: string)
    | FullLookup(geo: Geo, ip: Addr, latencyUS: nat, requestID: string)
    | ErrorText

  datatype Response = Response(status: nat, payload: Payload)

  function ResponseOf(route: Route, r: Request, v: Verdict, accepted: bool): Response {
    if NeedsDurableAudit(v.outcome) && !accepted then Response(503, ErrorText)
    else if v.outcome.Success? && v.ip.Some? then
      Response(200, if route.Country? then CountryOnly(v.geo.country)
                    else FullLookup(v.geo, v.ip.value, v.latencyUS, r.id))
    else Response(StatusCode(v.outcome), ErrorText)
  }

  // ---------------------------------------------------------------- what every request's verdict obeys

  /**
   * The answer is the audited one: a response carries its event's status unless a performed lookup could not be
   * audited, and then it is 503; data is returned only together with an accepted success event of this request.
   */
  lemma ResponseMatchesEvent(cfg: Config, lib: Library, caller: Option<string>, route: Route, r: Request, world: World)
    ensures var v := Judge(cfg, lib, caller, route, r, world);
      var event := EventOf(cfg, lib, r, v, world);
      var response := ResponseOf(route, r, v, world.auditAccepts);
      && event.requestID == r.id
      && (response.status == event.statusCode <==> world.auditAccepts || !NeedsDurableAudit(event.outcome))
      && (response.status != event.statusCode ==> response.status == 503)
      && (response.status == 200 <==> event.outcome.Success? && world.auditAccepts)
      && (!response.payload.ErrorText? <==> response.status == 200)
      && (response.payload.FullLookup? ==> response.payload.requestID == event.requestID)
  {
    var v := Judge(cfg, lib, caller, route, r, world);
    match v.outcome
    case Success =>
    case _ =>
  }

  /** The status of a refused target. */
  ghost predicate RefusedWith(o: Outcome, status: nat) {
    || (o.InvalidRequest? && status == 400) || (o.RequestTooLarge? && status == 413)
    || (o.InvalidIP? && status == 422) || (o.DisallowedIP? && status == 422)
    || (o.ClientIPUnavailable? && status == 400)
  }

  /**
   * The answer and its event, case by case. A lookup that could not be audited is answered 503; an audited one
   * returns what was asked for, and the event names the request, the caller, the outcome and the country found.
   */
  lemma EveryRequestHasItsAnswer(
      cfg: Config, lib: Library, caller: Option<string>, route: Route, r: Request, world: World)
    ensures var v := Judge(cfg, lib, caller, route, r, world);
      var event := EventOf(cfg, lib, r, v, world);
      var response := ResponseOf(route, r, v, world.auditAccepts);
      var target := TargetOf(cfg, lib, route, r);
      && event.requestID == r.id && (caller.Some? ==> event.callerID == caller.value)
      && event.outcome == v.outcome
      && (if caller.None? then response.status == event.statusCode == 401
          else if target.Refuse? then
            && event.outcome == target.outcome && RefusedWith(target.outcome, event.statusCode)
            && response.status == event.statusCode
          else
            var answer := world.lookup(target.ip);
            && event.latencyUS == world.latencyUS
            && (answer.Failed? ==> event.outcome.LookupError? && event.countryCode == "" && event.country == "")
            && (!answer.Failed? ==>
                  event.countryCode == answer.geo.countryCode && event.country == answer.geo.country)
            && var served := answer.Found? && !(route.Country? && answer.geo.country == "");
               && event.statusCode == (if answer.Failed? then 500 else if served then 200 else 404)
               && response.status == (if world.auditAccepts then event.statusCode else 503)
               && (served <==> event.outcome.Success?)
               && (served && world.auditAccepts ==>
                     response.payload
                     == if route.Country? then CountryOnly(answer.geo.country)
                        else FullLookup(answer.geo, target.ip, world.latencyUS, r.id)))
  {
    RefusalsAreNotUnauthorized(cfg, lib, route, r);
  }

  /** Of a list of forwarded addresses, and of one alone, the first counts. */
  lemma FirstHopCounts(first: string, rest: string)
    requires ',' !in first
    ensures FirstForwardedFor(first + [','] + rest) == TrimSpace(first) == FirstForwardedFor(first)
  {
    CutAtFirst(first, rest, ',');
  }

  /** No address is audited before the caller is authenticated, and none that the configuration omits. */
  lemma UnauthorizedCarriesNoIP(
      cfg: Config, lib: Library, caller: Option<string>, route: Route, r: Request, world: World)
    ensures var event := EventOf(cfg, lib, r, Judge(cfg, lib, caller, route, r, world), world);
      && (event.outcome.Unauthorized? <==> caller.None?)
      && (caller.None? ==> event.ipValue == "" && event.callerID == "unauthenticated")
      && (cfg.ipMode.Omitted? ==> event.ipValue == "")
  {
    RefusalsAreNotUnauthorized(cfg, lib, route, r);
  }

  /**
   * Which address an event is about: the one looked up or, if the target was refused, the one refused; none for an
   * unauthenticated caller or when the request yields none. It is audited as the configuration says.
   */
  lemma AddressIsAuditedAsConfigured(
      cfg: Config, lib: Library, caller: Option<string>, route: Route, r: Request, world: World)
    ensures var v := Judge(cfg, lib, caller, route, r, world);
      var event := EventOf(cfg, lib, r, v, world);
      var target := TargetOf(cfg, lib, route, r);
      && v.ip == (if caller.None? then None else if target.Aim? then Some(target.ip) else target.known)
      && event.ipMode == cfg.ipMode
      && (v.ip.None? || cfg.ipMode.Omitted? ==> event.ipValue == "")
      && (v.ip.Some? && cfg.ipMode.Raw? ==> event.ipValue == v.ip.value.text)
      && (v.ip.Some? && cfg.ipMode.Hmac? ==> event.ipValue == lib.mac(v.ip.value.text))
  {
  }

  /** Two targets that differ at most in addresses of one MAC, about which the database says the same. */
  predicate SameButForAddress(lib: Library, world: World, a: Target, b: Target) {
    match (a, b)
    case (Aim(p), Aim(q)) => lib.mac(p.text) == lib.mac(q.text) && world.lookup(p) == world.lookup(q)
    case (Refuse(x, p), Refuse(y, q)) =>
      x == y && p.Some? == q.Some? && (p.Some? ==> lib.mac(p.value.text) == lib.mac(q.value.text))
    case _ => false
  }

  /** In hmac mode an event tells nothing of the address but its MAC: equal MACs give equal events. */
  lemma HmacHidesTheAddress(
      cfg: Config, lib: Library, caller: Option<string>, route: Route, r: Request, other: Request, world: World)
    requires cfg.ipMode.Hmac? && r.id == other.id
    requires SameButForAddress(lib, world, TargetOf(cfg, lib, route, r), TargetOf(cfg, lib, route, other))
    ensures EventOf(cfg, lib, r, Judge(cfg, lib, caller, route, r, world), world)
         == EventOf(cfg, lib, other, Judge(cfg, lib, caller, route, other, world), world)
  {
    AddressIsAuditedAsConfigured(cfg, lib, caller, route, r, world);
    AddressIsAuditedAsConfigured(cfg, lib, caller, route, other, world);
  }

  lemma RefusalsAreNotUnauthorized(cfg: Config, lib: Library, route: Route, r: Request)
    ensures TargetOf(cfg, lib, route, r).Refuse? ==>
              && !TargetOf(cfg, lib, route, r).outcome.Unauthorized?
              && !NeedsDurableAudit(TargetOf(cfg, lib, route, r).outcome)
  {
  }

  /** Only addresses that were parsed and are permitted are ever looked up. */
  lemma SuccessIsPermitted(cfg: Config, lib: Library, caller: Option<string>, route: Route, r: Request, world: World)
    ensures var v := Judge(cfg, lib, caller, route, r, world);
      NeedsDurableAudit(v.outcome) ==>
        && v.ip.Some?
        && (cfg.allowPrivateIPs
            || (v.ip.value.globalUnicast
                && !v.ip.value.isPrivate && !v.ip.value.loopback && !v.ip.value.linkLocal))
        && exists raw: string :: lib.parseAddr(TrimSpace(raw)) == v.ip
  {
    RefusalsAreNotUnauthorized(cfg, lib, route, r);
    AimsAreParsed(cfg, lib, route, r);
  }

  /** An address the request yields is looked up if it is permitted and otherwise refused, as that address. */
  lemma AddressesAreVetted(cfg: Config, lib: Library, route: Route, r: Request)
    ensures var target := TargetOf(cfg, lib, route, r);
      && (target.Refuse? ==> (target.known.Some? <==> target.outcome.DisallowedIP?))
      && var ip := if target.Aim? then Some(target.ip) else target.known;
         ip.Some? ==>
           (target.Aim? <==>
              || cfg.allowPrivateIPs
              || (ip.value.globalUnicast && !ip.value.isPrivate && !ip.value.loopback && !ip.value.linkLocal))
  {
  }

  lemma AimsAreParsed(cfg: Config, lib: Library, route: Route, r: Request)
    ensures TargetOf(cfg, lib, route, r).Aim? ==>
              exists raw: string :: lib.parseAddr(TrimSpace(raw)) == Some(TargetOf(cfg, lib, route, r).ip)
  {
    if route.Me? && ClientIP(lib, r).Some? {
      var raws := [r.cfIP, FirstForwardedFor(r.forwardedFor), lib.hostOf(r.remoteAddr)];
      assert exists raw | raw in raws :: lib.parseAddr(TrimSpace(raw)) == ClientIP(lib, r) by {
        assert raws[0] in raws && raws[1] in raws && raws[2] in raws;
      }
    }
  }

  /** A result that carries no database version, which no opened reader has. */
  predicate Unversioned(geo: Geo) {
    TrimSpace(geo.cityVersion) == "" && TrimSpace(geo.asnVersion) == ""
  }

  /**
   * The event of an answered lookup names the pair of versions the result carries. It is independent of what is
   * installed when it is published if and only if the result carries one.
   */
  lemma EventNamesTheAnsweringPair(
      cfg: Config, lib: Library, caller: Option<string>, route: Route, r: Request, world: World)
    ensures var v := Judge(cfg, lib, caller, route, r, world);
      v.outcome.Success? || v.outcome.NotFound? ==>
        && v.ip.Some? && !world.lookup(v.ip.value).Failed?
        && var answer := world.lookup(v.ip.value).geo;
           && (!Unversioned(answer) ==>
                 EventOf(cfg, lib, r, v, world).mmdbVersion
                 == "city=" + TrimSpace(answer.cityVersion) + ";asn=" + TrimSpace(answer.asnVersion))
           && (!Unversioned(answer) <==>
                 forall live: string ::
                   EventOf(cfg, lib, r, v, world.(versionAtPublish := live)) == EventOf(cfg, lib, r, v, world))
  {
    AnsweredVerdict(cfg, lib, caller, route, r, world);
    VersionDependence(cfg, lib, r, Judge(cfg, lib, caller, route, r, world), world);
  }

  lemma AnsweredVerdict(cfg: Config, lib: Library, caller: Option<string>, route: Route, r: Request, world: World)
    ensures var v := Judge(cfg, lib, caller, route, r, world);
      v.outcome.Success? || v.outcome.NotFound? ==>
        v.ip.Some? && !world.lookup(v.ip.value).Failed? && v.geo == world.lookup(v.ip.value).geo
  {
    RefusalsAreNotUnauthorized(cfg, lib, route, r);
  }

  lemma VersionDependence(cfg: Config, lib: Library, r: Request, v: Verdict, world: World)
    ensures !Unversioned(v.geo) ==>
              EventOf(cfg, lib, r, v, world).mmdbVersion
              == PairVersion(TrimSpace(v.geo.cityVersion), TrimSpace(v.geo.asnVersion))
    ensures !Unversioned(v.geo) <==>
              forall live: string ::
                EventOf(cfg, lib, r, v, world.(versionAtPublish := live)) == EventOf(cfg, lib, r, v, world)
  {
    var other := world.versionAtPublish + "!";
    assert |other| != |world.versionAtPublish|;
    if Unversioned(v.geo) {
      assert EventOf(cfg, lib, r, v, world.(versionAtPublish := other)).mmdbVersion == other;
      assert EventOf(cfg, lib, r, v, world).mmdbVersion == world.versionAtPublish;
    }
  }

  // ---------------------------------------------------------------- the handlers

  /** One HTTP exchange: what was offered to the audit publisher and what was written to the client. */
  class Exchange {
    var offered: seq<AuditEvent>
    var written: seq<Response>

    constructor ()
      ensures offered == [] && written == []
    {
      offered, written := [], [];
    }

    method Write(status: nat, payload: Payload)
      modifies this`written
      ensures written == old(written) + [Response(status, payload)]
    {
      written := written + [Response(status, payload)];
    }
  }

  class ApiServer {
    const cfg: Config
    const lib: Library
    const auth: BearerVerifier

    constructor (cfg: Config, lib: Library, auth: BearerVerifier)
      ensures this.cfg == cfg && this.lib == lib && this.auth == auth
    {
      this.cfg, this.lib, this.auth := cfg, lib, auth;
    }

    /** publishAudit: one Publish attempt, reporting whether it was acknowledged. */
    method PublishAudit(
        x: Exchange, r: Request, caller: string, ip: Option<Addr>, geo: Geo, outcome: Outcome, latencyUS: nat,
        world: World)
      returns (accepted: bool)
      modifies x`offered
      ensures x.offered == old(x.offered) + [EventOf(cfg, lib, r, Verdict(outcome, caller, ip, geo, latencyUS), world)]
      ensures var value := x.offered[|old(x.offered)|].ipValue;
        match (ip, cfg.ipMode)
        case (Some(address), Raw) => value == address.text
        case (Some(address), Hmac) => value == lib.mac(address.text)
        case _ => value == ""
      ensures accepted == world.auditAccepts
    {
      var value := "";
      if ip.Some? {
        value := IPValue(cfg, lib, ip.value);
      }
      var event := AuditEvent(r.id, caller, value, cfg.ipMode, geo.countryCode, geo.country,
                              outcome, StatusCode(outcome), latencyUS,
                              AuditVersion(geo, world.versionAtPublish));
      x.offered := x.offered + [event];
      accepted := world.auditAccepts;
    }

    /** publishFailureAudit followed by the error response. */
    method Fail(x: Exchange, r: Request, caller: string, ip: Option<Addr>, outcome: Outcome, world: World)
      modifies x
      ensures x.offered == old(x.offered) + [EventOf(cfg, lib, r, Verdict(outcome, caller, ip, NoGeo, 0), world)]
      ensures x.written == old(x.written) + [Response(StatusCode(outcome), ErrorText)]
    {
      var _ := PublishAudit(x, r, caller, ip, NoGeo, outcome, 0, world);
      x.Write(StatusCode(outcome), ErrorText);
    }

    method Authenticate(x: Exchange, r: Request, now: Instant, world: World) returns (caller: Option<string>)
      modifies x
      ensures caller == Authorize(auth.hash, auth.fixed, auth.managed, r.authorization, now)
      ensures caller.Some? ==> unchanged(x)
      ensures caller.None? ==>
        var verdict := Verdict(Unauthorized, "unauthenticated", None, NoGeo, 0);
        Answered(x, old(x.offered), old(x.written), r, verdict, Country, world)
    {
      caller := auth.VerifyAuthorization(r.authorization, now);
      if caller.None? {
        Fail(x, r, "unauthenticated", None, Unauthorized, world);
      }
    }

    /** The exchange gained exactly the event and the response a verdict calls for. */
    ghost predicate Answered(
        x: Exchange, offered: seq<AuditEvent>, written: seq<Response>, r: Request, v: Verdict, route: Route,
        world: World)
      reads x
    {
      && x.offered == offered + [EventOf(cfg, lib, r, v, world)]
      && x.written == written + [ResponseOf(route, r, v, world.auditAccepts)]
    }

    /** A step that yields an address to go on with, or has refused the request completely. */
    ghost predicate AimedOrRefused(
        x: Exchange, offered: seq<AuditEvent>, written: seq<Response>, r: Request, caller: string,
        target: Target, got: Option<Addr>, route: Route, world: World)
      reads x
    {
      match target
      case Aim(ip) => got == Some(ip) && x.offered == offered && x.written == written
      case Refuse(outcome, ip) =>
        got == None && Answered(x, offered, written, r, Verdict(outcome, caller, ip, NoGeo, 0), route, world)
    }

    method ParseIP(
        x: Exchange, r: Request, caller: string, raw: string, route: Route, world: World) returns (ip: Option<Addr>)
      modifies x
      ensures AimedOrRefused(x, old(x.offered), old(x.written), r, caller, ParseTarget(cfg, lib, raw), ip, route, world)
    {
      ip := lib.parseAddr(TrimSpace(raw));
      if ip.None? {
        Fail(x, r, caller, None, InvalidIP, world);
        return None;
      }
      if !cfg.allowPrivateIPs && !PublicTarget(ip.value) {
        Fail(x, r, caller, ip, DisallowedIP, world);
        return None;
      }
    }

    /** Reads at most one byte more than allowed, decodes strictly, requires a single object. */
    method IPFromJSON(x: Exchange, r: Request, caller: string, route: Route, world: World) returns (ip: Option<Addr>)
      modifies x
      ensures AimedOrRefused(x, old(x.offered), old(x.written), r, caller,
                             JsonTarget(cfg, lib, r.body), ip, route, world)
    {
      if r.body.Unreadable? {
        Fail(x, r, caller, None, InvalidRequest, world);
        return None;
      }
      var limit := cfg.maxBodyBytes + 1;
      var body := if |r.body.bytes| > limit then r.body.bytes[..limit] else r.body.bytes;
      if |body| > cfg.maxBodyBytes {
        Fail(x, r, caller, None, RequestTooLarge, world);
        return None;
      }
      var document := lib.decode(body);
      if document.Undecodable? || document.ip == "" {
        Fail(x, r, caller, None, InvalidRequest, world);
        return None;
      }
      if document.trailing {
        Fail(x, r, caller, None, InvalidRequest, world);
        return None;
      }
      ip := ParseIP(x, r, caller, document.ip, route, world);
    }

    /** Looks an address up; errors and misses are answered here, provided they could be audited. */
    method PerformLookup(
        x: Exchange, r: Request, caller: string, ip: Addr, route: Route, world: World) returns (geo: Option<Geo>)
      modifies x
      ensures var answer := world.lookup(ip);
        match answer
        case Found(found) => geo == Some(found) && unchanged(x)
        case Absent(absent) =>
          var verdict := Verdict(NotFound, caller, Some(ip), absent, world.latencyUS);
          geo == None && Answered(x, old(x.offered), old(x.written), r, verdict, route, world)
        case Failed =>
          var verdict := Verdict(LookupError, caller, Some(ip), NoGeo, world.latencyUS);
          geo == None && Answered(x, old(x.offered), old(x.written), r, verdict, route, world)
    {
      var answer := world.lookup(ip);
      match answer {
        case Failed =>
          var accepted := PublishAudit(x, r, caller, Some(ip), NoGeo, LookupError, world.latencyUS, world);
          x.Write(if accepted then 500 else 503, ErrorText);
          return None;
        case Absent(absent) =>
          var accepted := PublishAudit(x, r, caller, Some(ip), absent, NotFound, world.latencyUS, world);
          x.Write(if accepted then 404 else 503, ErrorText);
          return None;
        case Found(found) =>
          return Some(found);
      }
    }

    method FullLookupFor(x: Exchange, r: Request, caller: string, ip: Addr, route: Route, world: World)
      requires !route.Country?
      modifies x
      ensures TargetOf(cfg, lib, route, r) == Aim(ip) ==>
                var verdict := Judge(cfg, lib, Some(caller), route, r, world);
                Answered(x, old(x.offered), old(x.written), r, verdict, route, world)
    {
      var geo := PerformLookup(x, r, caller, ip, route, world);
      if geo.None? {
        return;
      }
      var accepted := PublishAudit(x, r, caller, Some(ip), geo.value, Success, world.latencyUS, world);
      if !accepted {
        x.Write(503, ErrorText);
        return;
      }
      x.Write(200, FullLookup(geo.value, ip, world.latencyUS, r.id));
    }

    method HandleCountry(x: Exchange, r: Request, caller: string, world: World)
      modifies x
      ensures var verdict := Judge(cfg, lib, Some(caller), Country, r, world);
        Answered(x, old(x.offered), old(x.written), r, verdict, Country, world)
    {
      var ip := IPFromJSON(x, r, caller, Country, world);
      if ip.None? {
        return;
      }
      var geo := PerformLookup(x, r, caller, ip.value, Country, world);
      if geo.None? {
        return;
      }
      if geo.value.country == "" {
        var accepted := PublishAudit(x, r, caller, ip, geo.value, NotFound, world.latencyUS, world);
        x.Write(if accepted then 404 else 503, ErrorText);
        return;
      }
      var accepted := PublishAudit(x, r, caller, ip, geo.value, Success, world.latencyUS, world);
      if !accepted {
        x.Write(503, ErrorText);
        return;
      }
      x.Write(200, CountryOnly(geo.value.country));
    }

    method HandleLookupPost(x: Exchange, r: Request, caller: string, world: World)
      modifies x
      ensures var verdict := Judge(cfg, lib, Some(caller), LookupPost, r, world);
        Answered(x, old(x.offered), old(x.written), r, verdict, LookupPost, world)
    {
      var ip := IPFromJSON(x, r, caller, LookupPost, world);
      if ip.Some? {
        FullLookupFor(x, r, caller, ip.value, LookupPost, world);
      }
    }

    method HandleLookupGet(x: Exchange, r: Request, caller: string, world: World)
      modifies x
      ensures var verdict := Judge(cfg, lib, Some(caller), LookupGet, r, world);
        Answered(x, old(x.offered), old(x.written), r, verdict, LookupGet, world)
    {
      var raw := TrimSpace(r.queryIP);
      if raw == "" {
        Fail(x, r, caller, None, InvalidRequest, world);
        return;
      }
      var ip := ParseIP(x, r, caller, raw, LookupGet, world);
      if ip.Some? {
        FullLookupFor(x, r, caller, ip.value, LookupGet, world);
      }
    }

    /** clientIP: the first candidate that parses, else the peer. */
    method FindClientIP(r: Request) returns (ip: Option<Addr>)
      ensures ip == ClientIP(lib, r)
    {
      var candidates := [r.cfIP, FirstForwardedFor(r.forwardedFor)];
      for i := 0 to 2
        invariant i >= 1 ==> r.cfIP == "" || lib.parseAddr(TrimSpace(r.cfIP)).None?
        invariant i >= 2 ==> candidates[1] == "" || lib.parseAddr(TrimSpace(candidates[1])).None?
      {
        if candidates[i] != "" {
          ip := lib.parseAddr(TrimSpace(candidates[i]));
          if ip.Some? {
            return;
          }
        }
      }
      ip := lib.parseAddr(TrimSpace(lib.hostOf(r.remoteAddr)));
    }

    method HandleMe(x: Exchange, r: Request, caller: string, world: World)
      modifies x
      ensures Answered(x, old(x.offered), old(x.written), r, Judge(cfg, lib, Some(caller), Me, r, world), Me, world)
    {
      var ip := FindClientIP(r);
      if ip.None? {
        Fail(x, r, caller, None, ClientIPUnavailable, world);
        return;
      }
      if !cfg.allowPrivateIPs && !PublicTarget(ip.value) {
        Fail(x, r, caller, ip, DisallowedIP, world);
        return;
      }
      FullLookupFor(x, r, caller, ip.value, Me, world);
    }

    /** Every routed request: exactly one publish attempt and exactly one response, those its verdict calls for. */
    method Serve(route: Route, x: Exchange, r: Request, now: Instant, world: World)
      modifies x
      ensures var caller := Authorize(auth.hash, auth.fixed, auth.managed, r.authorization, now);
        Answered(x, old(x.offered), old(x.written), r, Judge(cfg, lib, caller, route, r, world), route, world)
    {
      var caller := Authenticate(x, r, now, world);
      if caller.None? {
        return;
      }
      match route
      case Country => HandleCountry(x, r, caller.value, world);
      case LookupPost => HandleLookupPost(x, r, caller.value, world);
      case LookupGet => HandleLookupGet(x, r, caller.value, world);
      case Me => HandleMe(x, r, caller.value, world);
    }
  }
}
