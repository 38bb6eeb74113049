/**
 * Lookups, reloads and audit publication interleaved step by step (internal/maxmindgeo/maxmind.go and
 * internal/httpapi/server.go). A lookup holds the read lock while it uses the two readers, and its event is
 * published after releasing it. One reload goroutine opens new readers without the lock, swaps them in under the
 * write lock, and closes the replaced ones after releasing it.
 */
module ReaderLock {
  import opened Common
  import opened Text
  import HttpApi

  // ---------------------------------------------------------------- versions

  /** The metadata of an opened database file. */
  datatype Build = Build(databaseType: string, builtAt: string)

  /** openVerified names a reader by its type and build time. */
  function VersionOf(b: Build): string {
    b.databaseType + "@" + b.builtAt
  }

  lemma {:induction false} TrimLeftKeeps(s: string, c: char)
    requires c in s && !IsSpace(c)
    ensures c in TrimLeft(s)
  {
    if IsSpace(s[0]) {
      assert s == [s[0]] + s[1..];
      TrimLeftKeeps(s[1..], c);
    }
  }

  lemma {:induction false} TrimRightKeeps(s: string, c: char)
    requires c in s && !IsSpace(c)
    ensures c in TrimRight(s)
  {
    if IsSpace(s[|s| - 1]) {
      assert s == s[..|s| - 1] + [s[|s| - 1]];
      TrimRightKeeps(s[..|s| - 1], c);
    }
  }

  lemma VersionIsNotBlank(b: Build)
    ensures TrimSpace(VersionOf(b)) != ""
  {
    assert VersionOf(b)[|b.databaseType|] == '@';
    TrimLeftKeeps(VersionOf(b), '@');
    TrimRightKeeps(TrimLeft(VersionOf(b)), '@');
  }

  // ---------------------------------------------------------------- the machine

  /** A lookup in progress: the versions it noted on entry, then the readers it used and what it found. */
  datatype Lookup =
    | Entered(cityVersion: string, asnVersion: string)
    | CityRead(cityVersion: string, asnVersion: string, city: nat, record: CityRecord)
    | BothRead(cityVersion: string, asnVersion: string, city: nat, asn: nat, content: Content)
    | Undecodable(cityVersion: string, asnVersion: string)

  /** What a database says about an address: unknown addresses have empty records. */
  datatype CityRecord = CityRecord(
    countryCode: string, country: string, city: string, place: seq<string>, network: string)

  datatype ASNRecord = ASNRecord(number: nat, organization: string, network: string)

  datatype Content = Content(city: CityRecord, asn: ASNRecord)

  datatype Reload =
    | Resting
    | Opened(newCity: Option<nat>, newASN: Option<nat>)
    | Swapped(oldCity: Option<nat>, oldASN: Option<nat>)

  /** A finished lookup: what it answers, the readers it really used, and what they said unless one did not decode. */
  datatype Report = Report(answer: HttpApi.LookupAnswer, city: nat, asn: nat, said: Option<Content>)

  /** The request a lookup is made for. */
  datatype Query = Query(
    cfg: HttpApi.Config, lib: HttpApi.Library, caller: string, route: HttpApi.Route, request: HttpApi.Request,
    latencyUS: nat)

  /** An event handed to the publisher, the lookup it is about, and the request that asked. */
  datatype Publication = Publication(event: HttpApi.AuditEvent, report: Report, query: Query)

  /**
   * Readers are numbered as they are opened; `versions` lists the version of each. `installs` is the history
   * of version pairs made current; `usedClosed` records whether any lookup ever touched a closed reader.
   * `reports` holds the finished lookups whose events are still to be published.
   */
  datatype State = State(
    city: nat, asn: nat, cityVersion: string, asnVersion: string,
    versions: seq<string>, closed: set<nat>,
    lookups: map<nat, Lookup>, reload: Reload,
    installs: seq<(string, string)>, reports: map<nat, Report>, published: seq<Publication>, usedClosed: bool)

  /** OpenMaxMind has returned: readers 0 and 1 are open and installed. */
  function Opening(city: Build, asn: Build): State {
    var c, a := VersionOf(city), VersionOf(asn);
    State(0, 1, c, a, [c, a], {}, map[], Resting, [(c, a)], map[], [], false)
  }

  datatype Event =
    | RLock(thread: nat)
    | ReadCity(thread: nat, record: Option<CityRecord>)
    | ReadASN(thread: nat, asnRecord: Option<ASNRecord>)
    | RUnlock(thread: nat)
    | Publish(thread: nat, query: Query)
    | OpenNew(city: Option<Build>, asn: Option<Build>)
    | OpenFails(cityOnly: Build)
    | Swap
    | CloseOldCity
    | CloseOldASN

  function Register(versions: seq<string>, b: Option<Build>): (seq<string>, Option<nat>) {
    match b
    case None => (versions, None)
    case Some(build) => (versions + [VersionOf(build)], Some(|versions|))
  }

  /** The swap under the write lock: only what changed is replaced. */
  function Install(s: State, newCity: Option<nat>, newASN: Option<nat>): State
    requires newCity.Some? ==> newCity.value < |s.versions|
    requires newASN.Some? ==> newASN.value < |s.versions|
  {
    var t := s.(city := if newCity.Some? then newCity.value else s.city,
                asn := if newASN.Some? then newASN.value else s.asn,
                cityVersion := if newCity.Some? then s.versions[newCity.value] else s.cityVersion,
                asnVersion := if newASN.Some? then s.versions[newASN.value] else s.asnVersion,
                reload := Swapped(if newCity.Some? then Some(s.city) else None,
                                  if newASN.Some? then Some(s.asn) else None));
    t.(installs := s.installs + [(t.cityVersion, t.asnVersion)])
  }

  predicate CityFound(c: CityRecord) {
    c.countryCode != "" || c.country != "" || c.city != ""
  }

  predicate ASNFound(a: ASNRecord) {
    a.number != 0 || a.organization != ""
  }

  /** The network is the City database's, or the ASN database's when that gives none. */
  function DetailsOf(c: CityRecord, a: ASNRecord): HttpApi.Details {
    var network := if CityFound(c) then c.network else "";
    HttpApi.Details(
      if CityFound(c) then [c.city] + c.place else [],
      if ASNFound(a) then a.number else 0,
      if ASNFound(a) then a.organization else "",
      if network == "" && ASNFound(a) then a.network else network)
  }

  /** Lookup's result: it carries the versions noted on entry, unless decoding failed. */
  function AnswerOf(l: Lookup): HttpApi.LookupAnswer {
    if !l.BothRead? then HttpApi.Failed
    else
      var geo := HttpApi.Geo(if CityFound(l.content.city) then l.content.city.countryCode else "",
                             if CityFound(l.content.city) then l.content.city.country else "",
                             l.cityVersion, l.asnVersion, DetailsOf(l.content.city, l.content.asn));
      if CityFound(l.content.city) || ASNFound(l.content.asn) then HttpApi.Found(geo) else HttpApi.Absent(geo)
  }

  function ReportOf(l: Lookup): Report {
    if l.BothRead? then Report(AnswerOf(l), l.city, l.asn, Some(l.content)) else Report(HttpApi.Failed, 0, 0, None)
  }

  /** The event of a request whose lookup gave this answer, published while the given pair is installed. */
  function EventFor(
      q: Query, answer: HttpApi.LookupAnswer, cityVersion: string, asnVersion: string): HttpApi.AuditEvent {
    var live := HttpApi.PairVersion(cityVersion, asnVersion);
    var world := HttpApi.World((ip: HttpApi.Addr) => answer, live, q.latencyUS, true);
    var verdict := HttpApi.Judge(q.cfg, q.lib, Some(q.caller), q.route, q.request, world);
    HttpApi.EventOf(q.cfg, q.lib, q.request, verdict, world)
  }

  function ApplyLookup(s: State, t: nat, l: Lookup): State {
    s.(lookups := s.lookups[t := l])
  }

  function Apply(s: State, e: Event): State {
    match e
    case RLock(t) =>
      if t in s.lookups || t in s.reports then s else ApplyLookup(s, t, Entered(s.cityVersion, s.asnVersion))
    case ReadCity(t, record) =>
      if t !in s.lookups || !s.lookups[t].Entered? then s
      else
        var l := s.lookups[t];
        var next := if record.Some? then CityRead(l.cityVersion, l.asnVersion, s.city, record.value)
                    else Undecodable(l.cityVersion, l.asnVersion);
        ApplyLookup(s, t, next).(usedClosed := s.usedClosed || s.city in s.closed)
    case ReadASN(t, record) =>
      if t !in s.lookups || !s.lookups[t].CityRead? then s
      else
        var l := s.lookups[t];
        var next := if record.Some? then
                      BothRead(l.cityVersion, l.asnVersion, l.city, s.asn, Content(l.record, record.value))
                    else Undecodable(l.cityVersion, l.asnVersion);
        ApplyLookup(s, t, next).(usedClosed := s.usedClosed || s.asn in s.closed)
    case RUnlock(t) =>
      if t !in s.lookups || !(s.lookups[t].BothRead? || s.lookups[t].Undecodable?) then s
      else s.(lookups := s.lookups - {t}, reports := s.reports[t := ReportOf(s.lookups[t])])
    case Publish(t, q) =>
      if t !in s.reports || !HttpApi.TargetOf(q.cfg, q.lib, q.route, q.request).Aim? then s
      else
        var event := EventFor(q, s.reports[t].answer, s.cityVersion, s.asnVersion);
        s.(reports := s.reports - {t}, published := s.published + [Publication(event, s.reports[t], q)])
    case OpenNew(city, asn) =>
      if !s.reload.Resting? then s
      else
        var (v1, newCity) := Register(s.versions, city);
        var (v2, newASN) := Register(v1, asn);
        s.(versions := v2, reload := Opened(newCity, newASN))
    case OpenFails(cityOnly) =>
      // the City file opened, the ASN file did not: the City reader is closed again
      if !s.reload.Resting? then s
      else s.(versions := s.versions + [VersionOf(cityOnly)], closed := s.closed + {|s.versions|})
    case Swap =>
      if !s.reload.Opened? || s.lookups != map[] then s
      else if (s.reload.newCity.Some? && s.reload.newCity.value >= |s.versions|)
              || (s.reload.newASN.Some? && s.reload.newASN.value >= |s.versions|) then s
      else Install(s, s.reload.newCity, s.reload.newASN)
    case CloseOldCity =>
      if !s.reload.Swapped? then s
      else if s.reload.oldCity.None? then s
      else s.(closed := s.closed + {s.reload.oldCity.value}, reload := Swapped(None, s.reload.oldASN))
    case CloseOldASN =>
      if !s.reload.Swapped? || s.reload.oldCity.Some? then s
      else if s.reload.oldASN.None? then s.(reload := Resting)
      else s.(closed := s.closed + {s.reload.oldASN.value}, reload := Resting)
  }

  function Run(s: State, events: seq<Event>): State
    decreases |events|
  {
    if events == [] then s else Run(Apply(s, events[0]), events[1..])
  }

  // ---------------------------------------------------------------- the invariant

  /** The installed readers are open, distinct and of the reported versions. */
  ghost predicate InstalledOk(s: State) {
    && s.city < |s.versions| && s.asn < |s.versions| && s.city != s.asn
    && s.city !in s.closed && s.asn !in s.closed
    && s.versions[s.city] == s.cityVersion && s.versions[s.asn] == s.asnVersion
    && (forall r | r in s.closed :: r < |s.versions|)
    && (s.cityVersion, s.asnVersion) in s.installs
  }

  ghost predicate Named(versions: seq<string>) {
    forall i | 0 <= i < |versions| :: TrimSpace(versions[i]) != ""
  }

  /** The reload goroutine only ever holds readers that are not installed. */
  ghost predicate ReloadOk(s: State) {
    match s.reload
    case Resting => true
    case Opened(newCity, newASN) =>
      && (newCity.Some? ==>
            newCity.value < |s.versions| && newCity.value !in s.closed && newCity.value !in {s.city, s.asn})
      && (newASN.Some? ==>
            newASN.value < |s.versions| && newASN.value !in s.closed && newASN.value !in {s.city, s.asn})
      && (newCity.Some? ==> newCity != newASN)
    case Swapped(oldCity, oldASN) =>
      && (oldCity.Some? ==> oldCity.value < |s.versions| && oldCity.value !in {s.city, s.asn})
      && (oldASN.Some? ==> oldASN.value < |s.versions| && oldASN.value !in {s.city, s.asn})
  }

  /** While any lookup is inside, what it noted is what is installed. */
  ghost predicate LookupsOk(s: State) {
    forall t | t in s.lookups ::
      && s.lookups[t].cityVersion == s.cityVersion && s.lookups[t].asnVersion == s.asnVersion
      && (s.lookups[t].CityRead? || s.lookups[t].BothRead? ==> s.lookups[t].city == s.city)
      && (s.lookups[t].BothRead? ==> s.lookups[t].asn == s.asn)
  }

  /** One of the databases knows the address. */
  predicate Known(said: Content) {
    || said.city.countryCode != "" || said.city.country != "" || said.city.city != ""
    || said.asn.number != 0 || said.asn.organization != ""
  }

  ghost predicate DetailsTell(d: HttpApi.Details, c: CityRecord, a: ASNRecord) {
    && d.asn == a.number && d.asnOrganization == a.organization
    && d.place == (if c.countryCode == c.country == c.city == "" then [] else [c.city] + c.place)
    && (d.network != "" ==> d.network == c.network || d.network == a.network)
    && (c.countryCode + c.country + c.city != "" && c.network != "" ==> d.network == c.network)
    && (c.network == "" && (a.number != 0 || a.organization != "") ==> d.network == a.network)
  }

  /** An answer tells what was read: a failure when something did not decode, else what the readers said. */
  ghost predicate Tells(answer: HttpApi.LookupAnswer, said: Option<Content>) {
    && (answer.Failed? <==> said.None?)
    && (said.Some? ==>
          && (answer.Found? <==> Known(said.value))
          && answer.geo.countryCode == said.value.city.countryCode && answer.geo.country == said.value.city.country
          && DetailsTell(answer.geo.details, said.value.city, said.value.asn))
  }

  /** A report tells what was read and carries a pair installed together, that of the readers it used. */
  ghost predicate ReportOk(s: State, r: Report) {
    && Tells(r.answer, r.said)
    && (!r.answer.Failed? ==>
      && (r.answer.geo.cityVersion, r.answer.geo.asnVersion) in s.installs
      && r.city < |s.versions| && s.versions[r.city] == r.answer.geo.cityVersion
      && r.asn < |s.versions| && s.versions[r.asn] == r.answer.geo.asnVersion)
  }

  /** An event says of the lookup what was read, to the request that asked. */
  ghost predicate EventTells(e: HttpApi.AuditEvent, q: Query, said: Option<Content>) {
    && e.requestID == q.request.id && e.callerID == q.caller
    && (e.outcome.LookupError? <==> said.None?)
    && (e.outcome.Success? <==>
          said.Some? && Known(said.value) && (q.route.Country? ==> said.value.city.country != ""))
    && (e.outcome.NotFound? <==>
          said.Some? && (!Known(said.value) || (q.route.Country? && said.value.city.country == "")))
    && e.countryCode == (if said.Some? then said.value.city.countryCode else "")
    && e.country == (if said.Some? then said.value.city.country else "")
  }

  /** An event names the pair of the readers that answered; if none did, a pair installed at some time. */
  ghost predicate PublicationOk(s: State, p: Publication) {
    && ReportOk(s, p.report)
    && EventTells(p.event, p.query, p.report.said)
    && (!p.report.answer.Failed? ==>
          p.event.mmdbVersion
          == HttpApi.PairVersion(TrimSpace(p.report.answer.geo.cityVersion), TrimSpace(p.report.answer.geo.asnVersion)))
    && (p.report.answer.Failed? ==>
          exists pair :: pair in s.installs && p.event.mmdbVersion == HttpApi.PairVersion(pair.0, pair.1))
  }

  ghost predicate ReportsOk(s: State) {
    && (forall t | t in s.reports :: ReportOk(s, s.reports[t]))
    && (forall i | 0 <= i < |s.published| :: PublicationOk(s, s.published[i]))
  }

  /** The readers and their use, apart from what is reported about them. */
  ghost predicate ReadersOk(s: State) {
    InstalledOk(s) && ReloadOk(s) && LookupsOk(s) && !s.usedClosed
  }

  ghost predicate Inv(s: State) {
    ReadersOk(s) && Named(s.versions) && ReportsOk(s)
  }

  lemma LookupKeepsReaders(s: State, e: Event)
    requires ReadersOk(s) && (e.RLock? || e.ReadCity? || e.ReadASN? || e.RUnlock? || e.Publish?)
    ensures ReadersOk(Apply(s, e))
  {
  }

  lemma OpenKeepsReaders(s: State, e: Event)
    requires ReadersOk(s) && (e.OpenNew? || e.OpenFails?)
    ensures ReadersOk(Apply(s, e))
  {
  }

  lemma SwapKeepsReaders(s: State)
    requires ReadersOk(s)
    ensures ReadersOk(Apply(s, Swap))
  {
    var t := Apply(s, Swap);
    if t != s {
      assert t.installs[|s.installs|] == (t.cityVersion, t.asnVersion);
    }
  }

  lemma CloseKeepsReaders(s: State, e: Event)
    requires ReadersOk(s) && (e.CloseOldCity? || e.CloseOldASN?)
    ensures ReadersOk(Apply(s, e))
  {
  }

  lemma ApplyKeepsReaders(s: State, e: Event)
    requires ReadersOk(s)
    ensures ReadersOk(Apply(s, e))
  {
    match e
    case Swap => SwapKeepsReaders(s);
    case OpenNew(_, _) => OpenKeepsReaders(s, e);
    case OpenFails(_) => OpenKeepsReaders(s, e);
    case CloseOldCity => CloseKeepsReaders(s, e);
    case CloseOldASN => CloseKeepsReaders(s, e);
    case _ => LookupKeepsReaders(s, e);
  }

  lemma RegisterKeepsNamed(versions: seq<string>, b: Option<Build>)
    requires Named(versions)
    ensures Named(Register(versions, b).0)
  {
    if b.Some? {
      VersionIsNotBlank(b.value);
    }
  }

  /** Versions and installs are only ever added to, and every version has a name. */
  ghost predicate Grows(s: State, t: State) {
    s.versions <= t.versions && s.installs <= t.installs && (Named(s.versions) ==> Named(t.versions))
  }

  lemma ApplyGrows(s: State, e: Event)
    ensures Grows(s, Apply(s, e))
  {
    if e.OpenNew? && Named(s.versions) {
      RegisterKeepsNamed(s.versions, e.city);
      RegisterKeepsNamed(Register(s.versions, e.city).0, e.asn);
    } else if e.OpenFails? && Named(s.versions) {
      RegisterKeepsNamed(s.versions, Some(e.cityOnly));
    }
  }

  lemma InstallsKept(s: State, t: State)
    requires s.installs <= t.installs
    ensures forall pair :: pair in s.installs ==> pair in t.installs
  {
    forall pair | pair in s.installs ensures pair in t.installs {
      var i :| 0 <= i < |s.installs| && s.installs[i] == pair;
      assert t.installs[i] == pair;
    }
  }

  /** What was reported or published stays right. */
  lemma ReportsSurvive(s: State, t: State)
    requires ReportsOk(s) && Grows(s, t) && t.reports == s.reports && t.published == s.published
    ensures ReportsOk(t)
  {
    InstallsKept(s, t);
    forall i | 0 <= i < |t.published| ensures PublicationOk(t, t.published[i]) {
      assert PublicationOk(s, s.published[i]);
    }
  }

  lemma EventForTells(q: Query, r: Report, cityVersion: string, asnVersion: string)
    requires Tells(r.answer, r.said) && HttpApi.TargetOf(q.cfg, q.lib, q.route, q.request).Aim?
    ensures EventTells(EventFor(q, r.answer, cityVersion, asnVersion), q, r.said)
  {
    var live := HttpApi.PairVersion(cityVersion, asnVersion);
    var world := HttpApi.World((ip: HttpApi.Addr) => r.answer, live, q.latencyUS, true);
    HttpApi.EveryRequestHasItsAnswer(q.cfg, q.lib, Some(q.caller), q.route, q.request, world);
  }

  /** The event a report gives rise to is the right one, whatever is installed by then. */
  lemma EventIsRight(s: State, q: Query, r: Report)
    requires InstalledOk(s) && Named(s.versions) && ReportOk(s, r)
    requires HttpApi.TargetOf(q.cfg, q.lib, q.route, q.request).Aim?
    ensures PublicationOk(s, Publication(EventFor(q, r.answer, s.cityVersion, s.asnVersion), r, q))
  {
    EventForTells(q, r, s.cityVersion, s.asnVersion);
    assert (s.cityVersion, s.asnVersion) in s.installs;
    if r.answer.Failed? {
      assert EventFor(q, r.answer, s.cityVersion, s.asnVersion).mmdbVersion
          == HttpApi.PairVersion(s.cityVersion, s.asnVersion);
    }
  }

  lemma OneMorePublication(s: State, thread: nat, p: Publication)
    requires ReportsOk(s) && PublicationOk(s, p)
    ensures ReportsOk(s.(reports := s.reports - {thread}, published := s.published + [p]))
  {
    var t := s.(reports := s.reports - {thread}, published := s.published + [p]);
    forall i | 0 <= i < |t.published| ensures PublicationOk(t, t.published[i]) {
      assert PublicationOk(s, t.published[i]);
    }
  }

  lemma PublishKeepsReports(s: State, thread: nat, q: Query)
    requires Inv(s)
    ensures ReportsOk(Apply(s, Publish(thread, q)))
  {
    if thread in s.reports && HttpApi.TargetOf(q.cfg, q.lib, q.route, q.request).Aim? {
      var r := s.reports[thread];
      EventIsRight(s, q, r);
      OneMorePublication(s, thread, Publication(EventFor(q, r.answer, s.cityVersion, s.asnVersion), r, q));
    }
  }

  lemma ReportTells(l: Lookup)
    ensures Tells(ReportOf(l).answer, ReportOf(l).said)
  {
  }

  lemma FinishedLookupIsOk(s: State, thread: nat)
    requires InstalledOk(s) && LookupsOk(s) && thread in s.lookups
    requires s.lookups[thread].BothRead? || s.lookups[thread].Undecodable?
    ensures ReportOk(s, ReportOf(s.lookups[thread]))
  {
    ReportTells(s.lookups[thread]);
  }

  lemma UnlockKeepsReports(s: State, thread: nat)
    requires Inv(s)
    ensures ReportsOk(Apply(s, RUnlock(thread)))
  {
    var t := Apply(s, RUnlock(thread));
    if t != s {
      FinishedLookupIsOk(s, thread);
      assert t.reports == s.reports[thread := ReportOf(s.lookups[thread])];
      forall i | 0 <= i < |t.published| ensures PublicationOk(t, t.published[i]) {
        assert PublicationOk(s, s.published[i]);
      }
    }
  }

  lemma OthersReportNothing(s: State, e: Event)
    requires !e.Publish? && !e.RUnlock?
    ensures Apply(s, e).reports == s.reports && Apply(s, e).published == s.published
  {
  }

  lemma ApplyKeepsReports(s: State, e: Event)
    requires Inv(s)
    ensures ReportsOk(Apply(s, e))
  {
    if e.Publish? {
      PublishKeepsReports(s, e.thread, e.query);
    } else if e.RUnlock? {
      UnlockKeepsReports(s, e.thread);
    } else {
      ApplyGrows(s, e);
      OthersReportNothing(s, e);
      ReportsSurvive(s, Apply(s, e));
    }
  }

  lemma ApplyKeepsInv(s: State, e: Event)
    requires Inv(s)
    ensures Inv(Apply(s, e))
  {
    ApplyKeepsReaders(s, e);
    ApplyGrows(s, e);
    ApplyKeepsReports(s, e);
  }

  lemma {:induction false} RunKeepsInv(s: State, events: seq<Event>)
    requires Inv(s)
    ensures Inv(Run(s, events))
    decreases |events|
  {
    if events != [] {
      ApplyKeepsInv(s, events[0]);
      RunKeepsInv(Apply(s, events[0]), events[1..]);
    }
  }

  lemma OpeningIsOk(city: Build, asn: Build)
    ensures Inv(Opening(city, asn))
  {
    VersionIsNotBlank(city);
    VersionIsNotBlank(asn);
  }

  // ---------------------------------------------------------------- theorems over every run

  /**
   * In every interleaving from OpenMaxMind on, although replaced readers are closed without the lock: no lookup
   * ever touches a closed reader, the installed readers are open, and every finished lookup carries a version
   * pair that was installed together and is that of the very readers it used. It failed exactly when one of them
   * did not decode, found the address exactly when they did, and answers with exactly what they said.
   */
  lemma LookupsAreSafeAndPaired(city: Build, asn: Build, events: seq<Event>, thread: nat)
    ensures var s := Run(Opening(city, asn), events);
      && !s.usedClosed && s.city !in s.closed && s.asn !in s.closed
      && (thread in s.reports ==>
            var report := s.reports[thread];
            && (report.answer.Failed? <==> report.said.None?)
            && (report.said.Some? ==>
                  var content, geo := report.said.value, report.answer.geo;
                  && (report.answer.Found? <==>
                        || content.city.countryCode != "" || content.city.country != "" || content.city.city != ""
                        || content.asn.number != 0 || content.asn.organization != "")
                  && geo.countryCode == content.city.countryCode && geo.country == content.city.country
                  && DetailsTell(geo.details, content.city, content.asn)
                  && report.city < |s.versions| && report.asn < |s.versions|
                  && geo.cityVersion == s.versions[report.city] && geo.asnVersion == s.versions[report.asn]
                  && (geo.cityVersion, geo.asnVersion) in s.installs))
  {
    OpeningIsOk(city, asn);
    RunKeepsInv(Opening(city, asn), events);
  }

  /**
   * However many reloads happen between a lookup and its publication: an event is `lookup_error` exactly when a
   * reader did not decode, `ok` exactly when the address was found (with a country, on the country route) and
   * `not_found` otherwise, and its country is the one read. An `ok` or `not_found` event names exactly the versions
   * of the two readers that answered, a pair installed together. A `lookup_error` event, for which no reader
   * answered, names a pair that was installed together too.
   */
  lemma PublishedEventsNameTheAnsweringPair(city: Build, asn: Build, events: seq<Event>, i: nat)
    requires i < |Run(Opening(city, asn), events).published|
    ensures var s := Run(Opening(city, asn), events);
      var p := s.published[i];
      var said := p.report.said;
      && (p.event.outcome.LookupError? <==> said.None?)
      && (p.event.outcome.Success? <==>
            said.Some? && Known(said.value) && (p.query.route.Country? ==> said.value.city.country != ""))
      && (said.Some? ==>
            && (p.event.outcome.Success? || p.event.outcome.NotFound?)
            && p.event.countryCode == said.value.city.countryCode && p.event.country == said.value.city.country
            && p.report.city < |s.versions| && p.report.asn < |s.versions|
            && var cityVersion, asnVersion := s.versions[p.report.city], s.versions[p.report.asn];
               && (cityVersion, asnVersion) in s.installs
               && p.event.mmdbVersion == "city=" + TrimSpace(cityVersion) + ";asn=" + TrimSpace(asnVersion))
      && (said.None? ==>
            && p.event.countryCode == "" && p.event.country == ""
            && exists pair :: pair in s.installs && p.event.mmdbVersion == "city=" + pair.0 + ";asn=" + pair.1)
  {
    OpeningIsOk(city, asn);
    RunKeepsInv(Opening(city, asn), events);
    assert PublicationOk(Run(Opening(city, asn), events), Run(Opening(city, asn), events).published[i]);
  }

  // ---------------------------------------------------------------- one lookup, one reload, whatever else happens

  predicate IsLookupStep(e: Event) {
    e.RLock? || e.ReadCity? || e.ReadASN? || e.RUnlock? || e.Publish?
  }

  predicate LeavesThread(events: seq<Event>, t: nat) {
    forall i | 0 <= i < |events| :: !(IsLookupStep(events[i]) && events[i].thread == t)
  }

  /** What others do leaves a thread's lookup and report as they are. */
  predicate SameThread(s: State, u: State, t: nat) {
    && (t in s.lookups <==> t in u.lookups) && (t in s.lookups ==> u.lookups[t] == s.lookups[t])
    && (t in s.reports <==> t in u.reports) && (t in s.reports ==> u.reports[t] == s.reports[t])
  }

  lemma StepLeavesThread(s: State, e: Event, t: nat)
    requires !(IsLookupStep(e) && e.thread == t)
    ensures SameThread(s, Apply(s, e), t)
  {
  }

  lemma {:induction false} OthersLeaveThread(s: State, events: seq<Event>, t: nat)
    requires LeavesThread(events, t)
    ensures SameThread(s, Run(s, events), t)
    decreases |events|
  {
    if events != [] {
      StepLeavesThread(s, events[0], t);
      OthersLeaveThread(Apply(s, events[0]), events[1..], t);
    }
  }

  /** A lookup of one thread from its lock to its publication, others doing anything in the four gaps. */
  function Looked(
      s: State, t: nat, read: (Option<CityRecord>, Option<ASNRecord>),
      gaps: (seq<Event>, seq<Event>, seq<Event>, seq<Event>))
    : State
  {
    var entered := Run(Apply(s, RLock(t)), gaps.0);
    var cityRead := Run(Apply(entered, ReadCity(t, read.0)), gaps.1);
    var bothRead := Run(Apply(cityRead, ReadASN(t, read.1)), gaps.2);
    Run(Apply(bothRead, RUnlock(t)), gaps.3)
  }

  /**
   * From any state, whatever reloads and other lookups do in between: the lookup ends in a report of what the
   * databases said, with the pair installed when it entered, and its publication hands over one event about it.
   */
  lemma LookupPublishesWhatItRead(
      s: State, t: nat, read: (Option<CityRecord>, Option<ASNRecord>),
      gaps: (seq<Event>, seq<Event>, seq<Event>, seq<Event>), q: Query)
    requires t !in s.lookups && t !in s.reports
    requires LeavesThread(gaps.0, t) && LeavesThread(gaps.1, t) && LeavesThread(gaps.2, t) && LeavesThread(gaps.3, t)
    requires HttpApi.TargetOf(q.cfg, q.lib, q.route, q.request).Aim?
    ensures var u := Looked(s, t, read, gaps);
      && t in u.reports
      && u.reports[t].said == (if read.0.Some? && read.1.Some? then Some(Content(read.0.value, read.1.value)) else None)
      && (u.reports[t].said.Some? ==>
            && !u.reports[t].answer.Failed?
            && u.reports[t].answer.geo.cityVersion == s.cityVersion
            && u.reports[t].answer.geo.asnVersion == s.asnVersion)
      && var p := Apply(u, Publish(t, q)).published;
         |p| == |u.published| + 1 && p[..|u.published|] == u.published
         && p[|u.published|].report == u.reports[t] && p[|u.published|].query == q
  {
    var locked := Apply(s, RLock(t));
    OthersLeaveThread(locked, gaps.0, t);
    var entered := Run(locked, gaps.0);
    OthersLeaveThread(Apply(entered, ReadCity(t, read.0)), gaps.1, t);
    var cityRead := Run(Apply(entered, ReadCity(t, read.0)), gaps.1);
    ReadingLeavesReport(cityRead, t, read, gaps.2, gaps.3, s.cityVersion, s.asnVersion);
  }

  lemma ReadingLeavesReport(
      s: State, t: nat, read: (Option<CityRecord>, Option<ASNRecord>), gap: seq<Event>, last: seq<Event>,
      cityVersion: string, asnVersion: string)
    requires t in s.lookups && LeavesThread(gap, t) && LeavesThread(last, t)
    requires if read.0.Some? then
               && s.lookups[t].CityRead? && s.lookups[t].record == read.0.value
               && s.lookups[t].cityVersion == cityVersion && s.lookups[t].asnVersion == asnVersion
             else s.lookups[t].Undecodable?
    ensures var u := Run(Apply(Run(Apply(s, ReadASN(t, read.1)), gap), RUnlock(t)), last);
      && t in u.reports
      && u.reports[t].said == (if read.0.Some? && read.1.Some? then Some(Content(read.0.value, read.1.value)) else None)
      && (u.reports[t].said.Some? ==>
            && !u.reports[t].answer.Failed?
            && u.reports[t].answer.geo.cityVersion == cityVersion && u.reports[t].answer.geo.asnVersion == asnVersion)
  {
    var done := Apply(s, ReadASN(t, read.1));
    OthersLeaveThread(done, gap, t);
    OthersLeaveThread(Apply(Run(done, gap), RUnlock(t)), last, t);
  }

  predicate OnlyLookups(events: seq<Event>) {
    forall i | 0 <= i < |events| :: IsLookupStep(events[i])
  }

  /** The part of the state that only the reload goroutine changes. */
  predicate SameReaders(s: State, u: State) {
    && u.city == s.city && u.asn == s.asn && u.cityVersion == s.cityVersion && u.asnVersion == s.asnVersion
    && u.versions == s.versions && u.closed == s.closed && u.reload == s.reload && u.installs == s.installs
  }

  lemma LookupLeavesReaders(s: State, e: Event)
    requires IsLookupStep(e)
    ensures SameReaders(s, Apply(s, e))
  {
  }

  lemma {:induction false} LookupsLeaveReaders(s: State, events: seq<Event>)
    requires OnlyLookups(events)
    ensures SameReaders(s, Run(s, events))
    decreases |events|
  {
    if events != [] {
      LookupLeavesReaders(s, events[0]);
      LookupsLeaveReaders(Apply(s, events[0]), events[1..]);
    }
  }

  /** A whole reload, lookups going on in its three gaps. */
  function Reloaded(
      s: State, city: Option<Build>, asn: Option<Build>, gaps: (seq<Event>, seq<Event>, seq<Event>)): State {
    var ready := Run(Apply(s, OpenNew(city, asn)), gaps.0);
    var swapped := Run(Apply(ready, Swap), gaps.1);
    Apply(Run(Apply(swapped, CloseOldCity), gaps.2), CloseOldASN)
  }

  /** The readers a reload has opened, and the state in which they are installed. */
  lemma OpenThenSwap(s: State, city: Option<Build>, asn: Option<Build>, gap: seq<Event>)
    requires s.reload.Resting? && OnlyLookups(gap)
    requires Run(Apply(s, OpenNew(city, asn)), gap).lookups == map[]
    ensures var u := Apply(Run(Apply(s, OpenNew(city, asn)), gap), Swap);
      && u.cityVersion == (if city.Some? then city.value.databaseType + "@" + city.value.builtAt else s.cityVersion)
      && u.asnVersion == (if asn.Some? then asn.value.databaseType + "@" + asn.value.builtAt else s.asnVersion)
      && u.installs == s.installs + [(u.cityVersion, u.asnVersion)] && u.closed == s.closed
      && (city.None? ==> u.city == s.city) && (asn.None? ==> u.asn == s.asn)
      && (city.Some? ==> u.city == |s.versions| < |u.versions| && u.versions[u.city] == u.cityVersion)
      && (asn.Some? ==> |s.versions| <= u.asn < |u.versions| && u.versions[u.asn] == u.asnVersion)
      && u.reload == Swapped(if city.Some? then Some(s.city) else None, if asn.Some? then Some(s.asn) else None)
  {
    LookupsLeaveReaders(Apply(s, OpenNew(city, asn)), gap);
  }

  /** Closing the replaced City reader, or the replaced ASN reader after it, changes nothing else. */
  lemma CloseCity(s: State)
    requires s.reload.Swapped?
    ensures var u := Apply(s, CloseOldCity);
      && u.closed == s.closed + Replaced(s.reload.oldCity) && u.reload == Swapped(None, s.reload.oldASN)
      && SameReaders(s.(closed := u.closed, reload := u.reload), u)
  {
  }

  lemma CloseASN(s: State)
    requires s.reload.Swapped? && s.reload.oldCity.None?
    ensures var u := Apply(s, CloseOldASN);
      && u.closed == s.closed + Replaced(s.reload.oldASN) && u.reload.Resting?
      && SameReaders(s.(closed := u.closed, reload := u.reload), u)
  {
  }

  function Replaced(reader: Option<nat>): set<nat> {
    if reader.Some? then {reader.value} else {}
  }

  lemma CloseBoth(s: State, gap: seq<Event>, last: seq<Event>)
    requires s.reload.Swapped? && OnlyLookups(gap) && OnlyLookups(last)
    ensures var u := Apply(Run(Apply(Run(s, gap), CloseOldCity), last), CloseOldASN);
      && u.closed == s.closed + Replaced(s.reload.oldCity) + Replaced(s.reload.oldASN) && u.reload.Resting?
      && SameReaders(s.(closed := u.closed, reload := u.reload), u)
  {
    LookupsLeaveReaders(s, gap);
    CloseCity(Run(s, gap));
    var closed := Apply(Run(s, gap), CloseOldCity);
    LookupsLeaveReaders(closed, last);
    CloseASN(Run(closed, last));
  }

  /**
   * A reload that finds no lookup inside at its swap installs exactly the databases that changed, closes exactly
   * the readers they replace, and is ready for the next one.
   */
  lemma ReloadInstallsWhatChanged(
      s: State, city: Option<Build>, asn: Option<Build>, gaps: (seq<Event>, seq<Event>, seq<Event>))
    requires s.reload.Resting? && OnlyLookups(gaps.0) && OnlyLookups(gaps.1) && OnlyLookups(gaps.2)
    requires Run(Apply(s, OpenNew(city, asn)), gaps.0).lookups == map[]
    ensures var u := Reloaded(s, city, asn, gaps);
      && u.cityVersion == (if city.Some? then city.value.databaseType + "@" + city.value.builtAt else s.cityVersion)
      && u.asnVersion == (if asn.Some? then asn.value.databaseType + "@" + asn.value.builtAt else s.asnVersion)
      && u.installs == s.installs + [(u.cityVersion, u.asnVersion)]
      && u.closed == s.closed + (if city.Some? then {s.city} else {}) + (if asn.Some? then {s.asn} else {})
      && (city.None? ==> u.city == s.city) && (asn.None? ==> u.asn == s.asn)
      && (city.Some? ==> u.city == |s.versions| < |u.versions| && u.versions[u.city] == u.cityVersion)
      && (asn.Some? ==> |s.versions| <= u.asn < |u.versions| && u.versions[u.asn] == u.asnVersion)
      && u.reload.Resting?
  {
    OpenThenSwap(s, city, asn, gaps.0);
    CloseBoth(Apply(Run(Apply(s, OpenNew(city, asn)), gaps.0), Swap), gaps.1, gaps.2);
  }

  // ---------------------------------------------------------------- the lock is needed

  /** A swap while a lookup is using the City reader, and the closing that follows it. */
  lemma SwapInsideCloses(s: State, thread: nat, n: nat)
    requires thread in s.lookups && s.lookups[thread].CityRead? && s.lookups[thread].city == s.city
    requires n < |s.versions|
    ensures var t := Apply(Install(s, Some(n), None), CloseOldCity);
      thread in t.lookups && t.lookups[thread].CityRead? && t.lookups[thread].city in t.closed
  {
    var swapped := Install(s, Some(n), None);
    assert swapped.reload == Swapped(Some(s.city), None) && swapped.lookups == s.lookups;
  }

  /** The lock is what does it: a swap let through while a lookup is inside leads it to a closed reader. */
  lemma UnlockedSwapWouldBreakIt(s: State, thread: nat, build: Build, record: CityRecord)
    requires s.reload.Resting? && s.lookups == map[thread := Entered(s.cityVersion, s.asnVersion)]
    ensures var ready := Apply(s, OpenNew(Some(build), None));
      && ready.reload == Opened(Some(|s.versions|), None) && |s.versions| < |ready.versions|
      && Apply(ready, Swap) == ready
      && var read := Apply(ready, ReadCity(thread, Some(record)));
         |s.versions| < |read.versions|
         && var t := Apply(Install(read, Some(|s.versions|), None), CloseOldCity);
            thread in t.lookups && t.lookups[thread].CityRead? && t.lookups[thread].city in t.closed
  {
    var ready := Apply(s, OpenNew(Some(build), None));
    assert ready == s.(versions := s.versions + [VersionOf(build)], reload := Opened(Some(|s.versions|), None));
    assert thread in ready.lookups;
    var read := Apply(ready, ReadCity(thread, Some(record)));
    assert read.lookups[thread] == CityRead(s.cityVersion, s.asnVersion, s.city, record);
    SwapInsideCloses(read, thread, |s.versions|);
  }
}
