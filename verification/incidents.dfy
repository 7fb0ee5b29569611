/**
  The incident handlers: list and create within an organization, and get,
  patch (including resolution) and add-update by incident id.

  No transition graph constrains incident statuses: any status may follow
  any other. Creating an incident overwrites its service's status from the
  impact; resolving one resets the service to OPERATIONAL; neither looks at
  the service's other open incidents.
 */
module Incidents {
  import opened Wrappers
  import opened Domain
  import opened Events
  import opened ErrorHandler
  import opened Sorting
  import opened Views

  /** POST body; `None` is an absent field. */
  datatype NewIncidentBody = NewIncidentBody(
    title: Option<string>,
    serviceId: Option<string>,
    impact: Option<string>,
    status: Option<string>,
    message: Option<string>)

  /** PATCH body; `None` is an absent field. */
  datatype IncidentPatch = IncidentPatch(status: Option<string>, title: Option<string>, impact: Option<string>)

  const TitleAndServiceRequired := Reject(400, "Title and serviceId are required")
  const MessageAndStatusRequired := Reject(400, "Message and status are required")

  /** The service status a newly created incident imposes on its service. */
  function ImpactServiceStatus(impact: Impact): ServiceStatus {
    if impact == Critical then MajorOutage
    else if impact == Major then PartialOutage
    else DegradedPerformance
  }

  /** Each impact marks the service differently, and never as operational or in maintenance. */
  lemma ImpactServiceStatusFacts(a: Impact, b: Impact)
    ensures ImpactServiceStatus(a) == ImpactServiceStatus(b) ==> a == b
    ensures ImpactServiceStatus(a) !in {Operational, UnderMaintenance}
    ensures ImpactServiceStatus(a) == MajorOutage <==> a == Critical
  {
  }

  /** The wire value of `impact`, `'MINOR'` when absent. */
  function RequestedImpact(body: NewIncidentBody): string {
    body.impact.GetOr("MINOR")
  }

  /** The wire value of `status`, `'INVESTIGATING'` when absent. */
  function RequestedStatus(body: NewIncidentBody): string {
    body.status.GetOr("INVESTIGATING")
  }

  predicate ServiceInOrg(s: Store, serviceId: Id, orgId: Id) {
    serviceId in s.services && s.services[serviceId].organizationId == orgId
  }

  /** The record `create` writes for `body`. */
  predicate IncidentCreatedFrom(inc: Incident, id: Id, orgId: Id, body: NewIncidentBody, now: nat) {
    && inc.id == id && inc.organizationId == orgId && inc.createdAt == now
    && body.title == Some(inc.title)
    && body.serviceId == Some(inc.serviceId)
    && ImpactName(inc.impact) == RequestedImpact(body)
    && IncidentStatusName(inc.status) == RequestedStatus(body)
    && (body.impact.None? ==> inc.impact == Minor)
    && (body.status.None? ==> inc.status == Investigating)
    && inc.resolvedAt.None?
  }

  /**
    POST /organizations/:orgId/incidents. An initial update is recorded
    exactly when a message is given. Impact and status values outside their
    enumerations are refused by the database.
   */
  function CreateIncident(s: Store, orgId: Id, body: NewIncidentBody, freshIncident: Id, freshUpdate: Id, now: nat)
    : (r: Result<(Store, Event), HttpError>)
    requires freshIncident !in s.incidents
    requires freshUpdate !in s.updates
    ensures !Truthy(body.title) || !Truthy(body.serviceId) ==> r == Failure(TitleAndServiceRequired)
    ensures Truthy(body.title) && Truthy(body.serviceId) && !ServiceInOrg(s, body.serviceId.value, orgId) ==>
              r == Failure(ServiceNotFound)
    ensures (Truthy(body.title) && Truthy(body.serviceId) && ServiceInOrg(s, body.serviceId.value, orgId)
             && (ParseImpact(RequestedImpact(body)).None? || ParseIncidentStatus(RequestedStatus(body)).None?)) ==>
              r == Failure(EnumRejected)
    ensures r.Success? <==>
              && Truthy(body.title) && Truthy(body.serviceId) && ServiceInOrg(s, body.serviceId.value, orgId)
              && ParseImpact(RequestedImpact(body)).Some? && ParseIncidentStatus(RequestedStatus(body)).Some?
    ensures r.Success? ==>
              var (s', ev) := r.value;
              && s'.orgs == s.orgs && s'.members == s.members
              && s'.incidents.Keys == s.incidents.Keys + {freshIncident}
              && (forall k :: k in s.incidents ==> s'.incidents[k] == s.incidents[k])
              && var inc := s'.incidents[freshIncident];
              && IncidentCreatedFrom(inc, freshIncident, orgId, body, now)
              && inc.organizationId == s.services[inc.serviceId].organizationId
              && OtherServicesKept(s, s', inc.serviceId)
              && s'.services[inc.serviceId] == s.services[inc.serviceId].(status := ImpactServiceStatus(inc.impact))
              && UpdatesKept(s, s')
              && (Truthy(body.message) ==>
                    && s'.updates.Keys == s.updates.Keys + {freshUpdate}
                    && s'.updates[freshUpdate] == IncidentUpdate(freshUpdate, freshIncident, body.message.value, inc.status, now))
              && (!Truthy(body.message) ==> s'.updates == s.updates)
              && ev == Event(orgId, IncidentCreated, IncidentPayload(inc))
  {
    if !Truthy(body.title) || !Truthy(body.serviceId) then Failure(TitleAndServiceRequired)
    else if !ServiceInOrg(s, body.serviceId.value, orgId) then Failure(ServiceNotFound)
    else match (ParseImpact(RequestedImpact(body)), ParseIncidentStatus(RequestedStatus(body)))
      case (Some(impact), Some(status)) =>
        var sid := body.serviceId.value;
        var inc := Incident(freshIncident, body.title.value, status, impact, sid, orgId, now, None);
        var updates :=
          if Truthy(body.message)
          then s.updates[freshUpdate := IncidentUpdate(freshUpdate, freshIncident, body.message.value, status, now)]
          else s.updates;
        var s' := s.(
          incidents := s.incidents[freshIncident := inc],
          updates := updates,
          services := s.services[sid := s.services[sid].(status := ImpactServiceStatus(impact))]);
        Success((s', Event(orgId, IncidentCreated, IncidentPayload(inc))))
      case _ => Failure(EnumRejected)
  }

  predicate MayAccessIncident(s: Store, id: Id, userId: Id) {
    id in s.incidents && IsMember(s, userId, s.incidents[id].organizationId)
  }

  /** The by-id checks, in order: 404 for an unknown incident, then 403 for a non-member. */
  predicate IncidentAccessOrder<T>(s: Store, id: Id, userId: Id, r: Result<T, HttpError>) {
    && (id !in s.incidents ==> r == Failure(IncidentNotFound))
    && (id in s.incidents && !IsMember(s, userId, s.incidents[id].organizationId) ==> r == Failure(AccessDenied))
  }

  /** The truthy fields of a patch name values of their enumerations. */
  predicate PatchValuesValid(body: IncidentPatch) {
    && (Truthy(body.status) ==> ParseIncidentStatus(body.status.value).Some?)
    && (Truthy(body.impact) ==> ParseImpact(body.impact.value).Some?)
  }

  predicate Resolves(body: IncidentPatch) {
    body.status == Some("RESOLVED")
  }

  /**
    PATCH /incidents/:id: the truthy fields among status, title and impact
    are written. Exactly a patch to RESOLVED stamps `resolvedAt` and resets
    the service to OPERATIONAL.
   */
  function PatchIncident(s: Store, id: Id, userId: Id, body: IncidentPatch, now: nat)
    : (r: Result<(Store, Event), HttpError>)
    ensures IncidentAccessOrder(s, id, userId, r)
    ensures MayAccessIncident(s, id, userId) && !PatchValuesValid(body) ==> r == Failure(EnumRejected)
    ensures r.Success? <==>
              && MayAccessIncident(s, id, userId) && PatchValuesValid(body)
              && (Resolves(body) ==> s.incidents[id].serviceId in s.services)
    ensures r.Success? ==>
              var (s', ev) := r.value;
              && s'.orgs == s.orgs && s'.members == s.members && s'.updates == s.updates
              && OtherIncidentsKept(s, s', id)
              && id in s'.incidents
              && var before := s.incidents[id];
              var after := s'.incidents[id];
              && after.id == before.id && after.serviceId == before.serviceId
              && after.organizationId == before.organizationId && after.createdAt == before.createdAt
              && (Truthy(body.status) ==> IncidentStatusName(after.status) == body.status.value)
              && (!Truthy(body.status) ==> after.status == before.status)
              && (Truthy(body.title) ==> after.title == body.title.value)
              && (!Truthy(body.title) ==> after.title == before.title)
              && (Truthy(body.impact) ==> ImpactName(after.impact) == body.impact.value)
              && (!Truthy(body.impact) ==> after.impact == before.impact)
              && (Resolves(body) ==>
                    && after.resolvedAt == Some(now)
                    && OtherServicesKept(s, s', before.serviceId)
                    && s'.services[before.serviceId] == s.services[before.serviceId].(status := Operational)
                    && ev == Event(before.organizationId, IncidentResolved, IncidentPayload(after)))
              && (!Resolves(body) ==>
                    && after.resolvedAt == before.resolvedAt
                    && s'.services == s.services
                    && ev == Event(before.organizationId, IncidentUpdated, IncidentPayload(after)))
  {
    if id !in s.incidents then Failure(IncidentNotFound)
    else
      var before := s.incidents[id];
      if !IsMember(s, userId, before.organizationId) then Failure(AccessDenied)
      else if !PatchValuesValid(body) then Failure(EnumRejected)
      else
        var after := before.(
          status := if Truthy(body.status) then ParseIncidentStatus(body.status.value).value else before.status,
          title := if Truthy(body.title) then body.title.value else before.title,
          impact := if Truthy(body.impact) then ParseImpact(body.impact.value).value else before.impact,
          resolvedAt := if Resolves(body) then Some(now) else before.resolvedAt);
        var s1 := s.(incidents := s.incidents[id := after]);
        if Resolves(body) then
          if before.serviceId !in s.services then Failure(RowRejected)
          else
            var svc := s.services[before.serviceId];
            Success((s1.(services := s.services[before.serviceId := svc.(status := Operational)]),
                     Event(before.organizationId, IncidentResolved, IncidentPayload(after))))
        else
          Success((s1, Event(before.organizationId, IncidentUpdated, IncidentPayload(after))))
  }

  /**
    POST /incidents/:id/updates: appends one update and copies its status to
    the incident. It touches neither `resolvedAt` nor any service, even for
    RESOLVED.
   */
  function AddIncidentUpdate(s: Store, id: Id, userId: Id, message: Option<string>, status: Option<string>,
                             freshUpdate: Id, now: nat)
    : (r: Result<(Store, Event), HttpError>)
    requires freshUpdate !in s.updates
    ensures !Truthy(message) || !Truthy(status) ==> r == Failure(MessageAndStatusRequired)
    ensures Truthy(message) && Truthy(status) ==> IncidentAccessOrder(s, id, userId, r)
    ensures (Truthy(message) && Truthy(status) && MayAccessIncident(s, id, userId)
             && ParseIncidentStatus(status.value).None?) ==> r == Failure(EnumRejected)
    ensures r.Success? <==>
              && Truthy(message) && Truthy(status) && MayAccessIncident(s, id, userId)
              && ParseIncidentStatus(status.value).Some?
    ensures r.Success? ==>
              var (s', ev) := r.value;
              && s'.orgs == s.orgs && s'.members == s.members && s'.services == s.services
              && s'.updates.Keys == s.updates.Keys + {freshUpdate}
              && UpdatesKept(s, s')
              && var u := s'.updates[freshUpdate];
              && u.id == freshUpdate && u.incidentId == id && u.message == message.value && u.createdAt == now
              && IncidentStatusName(u.status) == status.value
              && OtherIncidentsKept(s, s', id)
              && s'.incidents[id] == s.incidents[id].(status := u.status)
              && ev == Event(s.incidents[id].organizationId, IncidentUpdated, UpdatePayload(id, u))
  {
    if !Truthy(message) || !Truthy(status) then Failure(MessageAndStatusRequired)
    else if id !in s.incidents then Failure(IncidentNotFound)
    else
      var inc := s.incidents[id];
      if !IsMember(s, userId, inc.organizationId) then Failure(AccessDenied)
      else match ParseIncidentStatus(status.value)
        case None => Failure(EnumRejected)
        case Some(st) =>
          var u := IncidentUpdate(freshUpdate, id, message.value, st, now);
          Success((s.(updates := s.updates[freshUpdate := u], incidents := s.incidents[id := inc.(status := st)]),
                   Event(inc.organizationId, IncidentUpdated, UpdatePayload(id, u))))
  }

  // ---------------------------------------------------------------------------
  // Reads
  // ---------------------------------------------------------------------------

  /** The organization's incidents, restricted to `filter` when one is given. */
  function OrgIncidents(s: Store, orgId: Id, filter: Option<IncidentStatus>): set<Incident> {
    set k | k in s.incidents && s.incidents[k].organizationId == orgId
            && (filter.Some? ==> s.incidents[k].status == filter.value) :: s.incidents[k]
  }

  /**
    GET /organizations/:orgId/incidents[?status=…]: newest first, each with
    all its updates newest first. A falsy status applies no filter.
   */
  method ListIncidents(s: Store, orgId: Id, statusFilter: Option<string>) returns (r: Result<seq<IncidentView>, HttpError>)
    ensures r.Failure? <==> Truthy(statusFilter) && ParseIncidentStatus(statusFilter.value).None?
    ensures r.Failure? ==> r.error == EnumRejected
    ensures r.Success? ==>
              var filter := if Truthy(statusFilter) then ParseIncidentStatus(statusFilter.value) else None;
              var vs := r.value;
              && |vs| == |OrgIncidents(s, orgId, filter)|
              && (forall i :: 0 <= i < |vs| ==>
                    && vs[i].incident in s.incidents.Values
                    && vs[i].incident.organizationId == orgId
                    && (Truthy(statusFilter) ==> IncidentStatusName(vs[i].incident.status) == statusFilter.value)
                    && Selection(UpdatesOf(s, vs[i].incident.id), UpdateNewestKey, None, vs[i].updates))
              && (forall inc :: inc in OrgIncidents(s, orgId, filter) ==>
                    exists i :: 0 <= i < |vs| && vs[i].incident == inc)
              && (forall i, j :: 0 <= i < j < |vs| ==> vs[i].incident.createdAt >= vs[j].incident.createdAt)
  {
    var filter: Option<IncidentStatus> := None;
    if Truthy(statusFilter) {
      filter := ParseIncidentStatus(statusFilter.value);
      if filter.None? {
        return Failure(EnumRejected);
      }
    }
    var incs := SortAndTake(OrgIncidents(s, orgId, filter), IncidentNewestKey, None);
    SelectionWithoutLimitIsComplete(OrgIncidents(s, orgId, filter), IncidentNewestKey, incs);
    var vs := BuildViews(s, incs, None);
    forall i | 0 <= i < |vs|
      ensures vs[i].incident in s.incidents.Values && vs[i].incident.organizationId == orgId
      ensures Truthy(statusFilter) ==> IncidentStatusName(vs[i].incident.status) == statusFilter.value
    {
      assert incs[i] in OrgIncidents(s, orgId, filter);
    }
    forall inc | inc in OrgIncidents(s, orgId, filter)
      ensures exists i :: 0 <= i < |vs| && vs[i].incident == inc
    {
      var i :| 0 <= i < |incs| && incs[i] == inc;
      assert vs[i].incident == inc;
    }
    forall i, j | 0 <= i < j < |vs|
      ensures vs[i].incident.createdAt >= vs[j].incident.createdAt
    {
      NewestKeyMeansLaterFirst(incs[i], incs[j]);
    }
    r := Success(vs);
  }

  /** GET /incidents/:id: the incident with its whole update history, oldest first. */
  method GetIncident(s: Store, id: Id, userId: Id) returns (r: Result<IncidentView, HttpError>)
    ensures IncidentAccessOrder(s, id, userId, r)
    ensures r.Success? <==> MayAccessIncident(s, id, userId)
    ensures r.Success? ==>
              && r.value.incident == s.incidents[id]
              && Selection(UpdatesOf(s, id), UpdateOldestKey, None, r.value.updates)
              && (forall i, j :: 0 <= i < j < |r.value.updates| ==>
                    r.value.updates[i].createdAt <= r.value.updates[j].createdAt)
  {
    if id !in s.incidents {
      return Failure(IncidentNotFound);
    }
    if !IsMember(s, userId, s.incidents[id].organizationId) {
      return Failure(AccessDenied);
    }
    var us := SortAndTake(UpdatesOf(s, id), UpdateOldestKey, None);
    r := Success(IncidentView(s.incidents[id], us));
  }
}
