/**
  The unauthenticated status page of an organization, found by its slug:
  the overall label, the services, the unresolved incidents, and the
  history of resolved incidents.
 */
module PublicStatus {
  import opened Wrappers
  import opened Domain
  import opened ErrorHandler
  import opened Sorting
  import opened Views
  import opened ServiceController

  const MajorOutageLabel := "Major Outage"
  const DegradedLabel := "Degraded Performance"
  const MaintenanceLabel := "Under Maintenance"
  const AllOperationalLabel := "All Systems Operational"

  const StatusPageNotFound := Reject(404, "Status page not found")
  const DefaultHistoryLimit: nat := 10
  const UpdatesPerActiveIncident: nat := 5

  predicate AnyWithStatus(services: seq<Service>, st: ServiceStatus) {
    exists svc :: svc in services && svc.status == st
  }

  /**
    The overall label, by fixed precedence: an outage beats a degradation
    (partial outage or degraded performance), which beats maintenance.
   */
  function OverallStatus(services: seq<Service>): (overall: string)
    ensures overall == MajorOutageLabel <==> AnyWithStatus(services, MajorOutage)
    ensures overall == DegradedLabel <==>
              && !AnyWithStatus(services, MajorOutage)
              && (AnyWithStatus(services, PartialOutage) || AnyWithStatus(services, DegradedPerformance))
    ensures overall == MaintenanceLabel <==>
              && !AnyWithStatus(services, MajorOutage)
              && !AnyWithStatus(services, PartialOutage) && !AnyWithStatus(services, DegradedPerformance)
              && AnyWithStatus(services, UnderMaintenance)
    ensures overall == AllOperationalLabel <==> forall svc :: svc in services ==> svc.status == Operational
  {
    var hasOutage := AnyWithStatus(services, MajorOutage);
    var hasDegradation := AnyWithStatus(services, PartialOutage) || AnyWithStatus(services, DegradedPerformance);
    var hasMaintenance := AnyWithStatus(services, UnderMaintenance);
    if hasOutage then MajorOutageLabel
    else if hasDegradation then DegradedLabel
    else if hasMaintenance then MaintenanceLabel
    else AllOperationalLabel
  }

  // ---------------------------------------------------------------------------
  // An independent reading of the precedence: the label of the worst status
  // ---------------------------------------------------------------------------

  /** How bad a status is for the page as a whole. */
  function Severity(st: ServiceStatus): nat {
    match st
    case Operational => 0
    case UnderMaintenance => 1
    case DegradedPerformance => 2
    case PartialOutage => 2
    case MajorOutage => 3
  }

  function SeverityLabel(n: nat): string {
    if n >= 3 then MajorOutageLabel
    else if n == 2 then DegradedLabel
    else if n == 1 then MaintenanceLabel
    else AllOperationalLabel
  }

  /** The greatest severity among the services, 0 for none. */
  function WorstSeverity(services: seq<Service>): (n: nat)
    ensures n <= 3
    ensures forall svc :: svc in services ==> Severity(svc.status) <= n
    ensures n > 0 ==> exists svc :: svc in services && Severity(svc.status) == n
  {
    if services == [] then 0
    else
      var rest := WorstSeverity(services[1..]);
      assert forall svc :: svc in services ==> svc == services[0] || svc in services[1..];
      if Severity(services[0].status) >= rest then Severity(services[0].status) else rest
  }

  /** Some service has severity `n` exactly when one has a status of that severity. */
  lemma SeverityPresent(services: seq<Service>, n: nat)
    requires 1 <= n <= 3
    ensures (exists svc :: svc in services && Severity(svc.status) == n) <==>
            (if n == 3 then AnyWithStatus(services, MajorOutage)
             else if n == 2 then AnyWithStatus(services, PartialOutage) || AnyWithStatus(services, DegradedPerformance)
             else AnyWithStatus(services, UnderMaintenance))
  {
    if exists svc :: svc in services && Severity(svc.status) == n {
      var svc :| svc in services && Severity(svc.status) == n;
      assert svc.status in {MajorOutage, PartialOutage, DegradedPerformance, UnderMaintenance};
    }
  }

  /** The precedence chain is exactly "label of the worst status". */
  lemma OverallStatusIsWorstSeverity(services: seq<Service>)
    ensures OverallStatus(services) == SeverityLabel(WorstSeverity(services))
  {
    var n := WorstSeverity(services);
    SeverityPresent(services, 3);
    SeverityPresent(services, 2);
    SeverityPresent(services, 1);
    var outage := AnyWithStatus(services, MajorOutage);
    var degraded := AnyWithStatus(services, PartialOutage) || AnyWithStatus(services, DegradedPerformance);
    var maintenance := AnyWithStatus(services, UnderMaintenance);
    assert outage <==> n == 3;
    assert !outage ==> (degraded <==> n == 2);
    assert !outage && !degraded ==> (maintenance <==> n == 1);
  }

  /** The label depends on which services there are, not on their order or repetition. */
  lemma OverallStatusIgnoresOrder(a: seq<Service>, b: seq<Service>)
    requires forall svc :: svc in a <==> svc in b
    ensures OverallStatus(a) == OverallStatus(b)
  {
    assert forall st :: AnyWithStatus(a, st) == AnyWithStatus(b, st);
  }

  lemma NoServicesMeansAllOperational()
    ensures OverallStatus([]) == AllOperationalLabel
  {
  }

  // ---------------------------------------------------------------------------
  // The two public endpoints
  // ---------------------------------------------------------------------------

  datatype OrgSummary = OrgSummary(id: Id, name: string, slug: string)

  datatype StatusPage = StatusPage(
    organization: OrgSummary,
    overallStatus: string,
    services: seq<Service>,
    activeIncidents: seq<IncidentView>,
    lastUpdated: nat)

  /** An organization whose slug is `slug`, if any. */
  method FindBySlug(s: Store, slug: string) returns (o: Option<Organization>)
    ensures o.Some? <==> SlugTaken(s, slug)
    ensures o.Some? ==> o.value in s.orgs.Values && o.value.slug == slug
  {
    if SlugTaken(s, slug) {
      var k :| k in s.orgs && s.orgs[k].slug == slug;
      o := Some(s.orgs[k]);
    } else {
      o := None;
    }
  }

  function ActiveIncidents(s: Store, orgId: Id): set<Incident> {
    set k | k in s.incidents && s.incidents[k].organizationId == orgId && s.incidents[k].status != Resolved
      :: s.incidents[k]
  }

  function IncidentsOf(vs: seq<IncidentView>): seq<Incident> {
    seq(|vs|, i requires 0 <= i < |vs| => vs[i].incident)
  }

  /** GET /public/status/:slug; `now` is the page's `lastUpdated`. */
  method GetPublicStatus(s: Store, slug: string, now: nat) returns (r: Result<StatusPage, HttpError>)
    ensures r.Failure? <==> !SlugTaken(s, slug)
    ensures r.Failure? ==> r.error == StatusPageNotFound
    ensures r.Success? ==>
              var p := r.value;
              && p.organization.slug == slug
              && (exists o :: o in s.orgs.Values && o.slug == slug && p.organization == OrgSummary(o.id, o.name, o.slug))
              && p.overallStatus == OverallStatus(p.services)
              && Selection(OrgServices(s, p.organization.id), ServiceListKey, None, p.services)
              && (forall i, j :: 0 <= i < j < |p.services| ==> ListedBefore(p.services[i], p.services[j]))
              && Selection(ActiveIncidents(s, p.organization.id), IncidentNewestKey, None, IncidentsOf(p.activeIncidents))
              && ViewsOf(s, IncidentsOf(p.activeIncidents), Some(UpdatesPerActiveIncident), p.activeIncidents)
              && p.lastUpdated == now
  {
    var found := FindBySlug(s, slug);
    if found.None? {
      return Failure(StatusPageNotFound);
    }
    var org := found.value;
    var services := SortAndTake(OrgServices(s, org.id), ServiceListKey, None);
    forall i, j | 0 <= i < j < |services|
      ensures ListedBefore(services[i], services[j])
    {
      ServiceListKeyMeansListedBefore(services[i], services[j]);
    }
    var incs := SortAndTake(ActiveIncidents(s, org.id), IncidentNewestKey, None);
    var views := BuildViews(s, incs, Some(UpdatesPerActiveIncident));
    assert IncidentsOf(views) == incs;
    r := Success(StatusPage(OrgSummary(org.id, org.name, org.slug), OverallStatus(services), services, views, now));
  }

  function ResolvedIncidents(s: Store, orgId: Id): set<Incident> {
    set k | k in s.incidents && s.incidents[k].organizationId == orgId && s.incidents[k].status == Resolved
      :: s.incidents[k]
  }

  /**
    `orderBy: { resolvedAt: 'desc' }`: latest resolution first. Incidents
    without a `resolvedAt` come ahead of all others, which assumes the
    PostgreSQL default for a descending order; an engine that sorts missing
    values last would list them at the end instead.
   */
  function HistoryKey(i: Incident): Key {
    match i.resolvedAt
    case None => Key(0, 0)
    case Some(t) => Key(1, -(t as int))
  }

  predicate ResolvedNoEarlier(a: Incident, b: Incident) {
    a.resolvedAt.None? || (b.resolvedAt.Some? && a.resolvedAt.value >= b.resolvedAt.value)
  }

  lemma HistoryKeyMeansResolvedNoEarlier(a: Incident, b: Incident)
    ensures KeyLe(HistoryKey(a), HistoryKey(b)) <==> ResolvedNoEarlier(a, b)
  {
  }

  /** GET /public/status/:slug/history[?limit=N]; the limit defaults to 10. */
  method GetHistory(s: Store, slug: string, limit: Option<nat>) returns (r: Result<seq<IncidentView>, HttpError>)
    ensures r.Failure? <==> !SlugTaken(s, slug)
    ensures r.Failure? ==> r.error == StatusPageNotFound
    ensures r.Success? ==>
              var vs := r.value;
              && |vs| <= limit.GetOr(DefaultHistoryLimit)
              && (exists o :: o in s.orgs.Values && o.slug == slug
                   && Selection(ResolvedIncidents(s, o.id), HistoryKey, Some(limit.GetOr(DefaultHistoryLimit)), IncidentsOf(vs)))
              && (forall i :: 0 <= i < |vs| ==> vs[i].incident.status == Resolved && vs[i].incident in s.incidents.Values)
              && (forall i, j :: 0 <= i < j < |vs| ==> ResolvedNoEarlier(vs[i].incident, vs[j].incident))
              && ViewsOf(s, IncidentsOf(vs), None, vs)
  {
    var found := FindBySlug(s, slug);
    if found.None? {
      return Failure(StatusPageNotFound);
    }
    var org := found.value;
    var incs := SortAndTake(ResolvedIncidents(s, org.id), HistoryKey, Some(limit.GetOr(DefaultHistoryLimit)));
    var views := BuildViews(s, incs, None);
    assert IncidentsOf(views) == incs;
    forall i | 0 <= i < |views|
      ensures views[i].incident.status == Resolved && views[i].incident in s.incidents.Values
    {
      assert incs[i] in ResolvedIncidents(s, org.id);
    }
    forall i, j | 0 <= i < j < |views|
      ensures ResolvedNoEarlier(views[i].incident, views[j].incident)
    {
      HistoryKeyMeansResolvedNoEarlier(incs[i], incs[j]);
    }
    r := Success(views);
  }
}
