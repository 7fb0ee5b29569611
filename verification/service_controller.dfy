/**
  The service handlers: create and list within an organization, and get,
  full update (PUT), partial update (PATCH), status-only update and delete
  by service id.

  Each mutating handler is one atomic step: it answers an error, or a new
  store together with the event broadcast to the service's organization.
  Body validation comes first; then 404 for an unknown id, then 403 for a
  caller who is not a member of the service's organization.
 */
module ServiceController {
  import opened Wrappers
  import opened Domain
  import opened Events
  import opened ErrorHandler
  import opened Sorting
  import opened Views

  /** A request body; `None` is an absent field. */
  datatype ServiceBody = ServiceBody(
    name: Option<string>,
    description: Option<string>,
    status: Option<string>,
    order: Option<int>)

  const NameRequired := Reject(400, "Service name is required")
  const StatusRequired := Reject(400, "Status is required")
  const InvalidStatus := RejectWithChoices(400, "Invalid status", ValidServiceStatuses)

  /** `status && !validStatuses.includes(status)` rejects: a falsy status is not checked. */
  predicate StatusCheckPasses(status: Option<string>) {
    !Truthy(status) || status.value in ValidServiceStatuses
  }

  /** Nothing but the services table differs. */
  predicate OnlyServicesChange(s: Store, s': Store) {
    s'.orgs == s.orgs && s'.members == s.members && s'.incidents == s.incidents && s'.updates == s.updates
  }

  /** The by-id checks, in order: 404 for an unknown service, then 403 for a non-member. */
  predicate AccessOrder<T>(s: Store, id: Id, userId: Id, r: Result<T, HttpError>) {
    && (id !in s.services ==> r == Failure(ServiceNotFound))
    && (id in s.services && !IsMember(s, userId, s.services[id].organizationId) ==> r == Failure(AccessDenied))
  }

  predicate MayAccess(s: Store, id: Id, userId: Id) {
    id in s.services && IsMember(s, userId, s.services[id].organizationId)
  }

  /** The record `createService` writes for `body`. */
  predicate CreatedFrom(svc: Service, id: Id, orgId: Id, body: ServiceBody, now: nat) {
    && svc.id == id && svc.organizationId == orgId && svc.createdAt == now
    && body.name == Some(svc.name)
    && svc.description == body.description
    && (body.status.None? ==> svc.status == Operational)
    && (body.status.Some? ==> ServiceStatusName(svc.status) == body.status.value)
    && (body.order.None? ==> svc.order == 0)
    && (body.order.Some? ==> svc.order == body.order.value)
  }

  /**
    POST /organizations/:orgId/services. The status defaults to OPERATIONAL and
    the order to 0 only when absent; an empty status passes the handler's
    check but is refused by the status column, and an organization id with
    no organization is refused by the foreign key.
   */
  function CreateService(s: Store, orgId: Id, body: ServiceBody, freshId: Id, now: nat)
    : (r: Result<(Store, Event), HttpError>)
    requires freshId !in s.services
    ensures !Truthy(body.name) ==> r == Failure(NameRequired)
    ensures Truthy(body.name) && !StatusCheckPasses(body.status) ==> r == Failure(InvalidStatus)
    ensures Truthy(body.name) && body.status == Some("") ==> r == Failure(EnumRejected)
    ensures Truthy(body.name) && StatusCheckPasses(body.status) && body.status != Some("") && orgId !in s.orgs ==>
              r == Failure(RowRejected)
    ensures r.Failure? ==> r.error.status == 400
    ensures r.Success? <==>
              Truthy(body.name) && StatusCheckPasses(body.status) && body.status != Some("") && orgId in s.orgs
    ensures r.Success? ==>
              var (s', ev) := r.value;
              && OnlyServicesChange(s, s')
              && s'.services.Keys == s.services.Keys + {freshId}
              && (forall k :: k in s.services ==> s'.services[k] == s.services[k])
              && CreatedFrom(s'.services[freshId], freshId, orgId, body, now)
              && ev == Event(orgId, ServiceCreated, ServicePayload(s'.services[freshId]))
  {
    var status := body.status.GetOr("OPERATIONAL");
    if !Truthy(body.name) then Failure(NameRequired)
    else if !StatusCheckPasses(body.status) then Failure(InvalidStatus)
    else match ParseServiceStatus(status)
      case None => Failure(EnumRejected)
      case Some(st) =>
        if orgId !in s.orgs then Failure(RowRejected)
        else
          var svc := Service(freshId, body.name.value, body.description, st, body.order.GetOr(0), orgId, now);
          Success((s.(services := s.services[freshId := svc]), Event(orgId, ServiceCreated, ServicePayload(svc))))
  }

  // ---------------------------------------------------------------------------
  // Listing
  // ---------------------------------------------------------------------------

  /** A listed service with the number of its incidents that are not RESOLVED. */
  datatype ServiceSummary = ServiceSummary(service: Service, openIncidents: nat)

  function OrgServices(s: Store, orgId: Id): set<Service> {
    set k | k in s.services && s.services[k].organizationId == orgId :: s.services[k]
  }

  function OpenIncidentCount(s: Store, serviceId: Id): nat {
    |set k | k in s.incidents && s.incidents[k].serviceId == serviceId && s.incidents[k].status != Resolved|
  }

  /** `orderBy: [{ order: 'asc' }, { createdAt: 'desc' }]` */
  function ServiceListKey(svc: Service): Key {
    Key(svc.order, -(svc.createdAt as int))
  }

  /** The listing order stated directly: lower order first, then the newer one first. */
  predicate ListedBefore(a: Service, b: Service) {
    a.order < b.order || (a.order == b.order && a.createdAt >= b.createdAt)
  }

  lemma ServiceListKeyMeansListedBefore(a: Service, b: Service)
    ensures KeyLe(ServiceListKey(a), ServiceListKey(b)) <==> ListedBefore(a, b)
  {
  }

  /** GET /organizations/:orgId/services: the organization's services in listing order. */
  method GetServices(s: Store, orgId: Id) returns (r: seq<ServiceSummary>)
    ensures |r| == |OrgServices(s, orgId)|
    ensures forall i :: 0 <= i < |r| ==>
              && r[i].service in s.services.Values
              && r[i].service.organizationId == orgId
              && r[i].openIncidents == OpenIncidentCount(s, r[i].service.id)
    ensures forall svc :: svc in OrgServices(s, orgId) ==> exists i :: 0 <= i < |r| && r[i].service == svc
    ensures forall i, j :: 0 <= i < j < |r| ==> ListedBefore(r[i].service, r[j].service)
  {
    var sorted := SortSet(OrgServices(s, orgId), ServiceListKey);
    r := seq(|sorted|, i requires 0 <= i < |sorted| => ServiceSummary(sorted[i], OpenIncidentCount(s, sorted[i].id)));
    forall i | 0 <= i < |r|
      ensures r[i].service in s.services.Values && r[i].service.organizationId == orgId
    {
      assert sorted[i] in OrgServices(s, orgId);
      var k :| k in s.services && s.services[k].organizationId == orgId && s.services[k] == sorted[i];
    }
    forall i, j | 0 <= i < j < |r|
      ensures ListedBefore(r[i].service, r[j].service)
    {
      ServiceListKeyMeansListedBefore(sorted[i], sorted[j]);
    }
    forall svc | svc in OrgServices(s, orgId)
      ensures exists i :: 0 <= i < |r| && r[i].service == svc
    {
      var i :| 0 <= i < |sorted| && sorted[i] == svc;
      assert r[i].service == svc;
    }
  }

  // ---------------------------------------------------------------------------
  // By-id handlers
  // ---------------------------------------------------------------------------

  /** The service a by-id request may act on, or the 404/403 that stops it. */
  function ServiceAccess(s: Store, id: Id, userId: Id): (r: Result<Service, HttpError>)
    ensures AccessOrder(s, id, userId, r)
    ensures r.Success? <==> MayAccess(s, id, userId)
    ensures r.Success? ==> r.value == s.services[id]
  {
    if id !in s.services then Failure(ServiceNotFound)
    else if !IsMember(s, userId, s.services[id].organizationId) then Failure(AccessDenied)
    else Success(s.services[id])
  }

  /** A service with its unresolved incidents, each carrying its latest update. */
  datatype ServiceDetail = ServiceDetail(service: Service, openIncidents: seq<IncidentView>)

  function OpenIncidentsOf(s: Store, serviceId: Id): set<Incident> {
    set k | k in s.incidents && s.incidents[k].serviceId == serviceId && s.incidents[k].status != Resolved
      :: s.incidents[k]
  }

  /** GET /services/:id */
  method GetServiceById(s: Store, id: Id, userId: Id) returns (r: Result<ServiceDetail, HttpError>)
    ensures AccessOrder(s, id, userId, r)
    ensures r.Success? <==> MayAccess(s, id, userId)
    ensures r.Success? ==>
              && r.value.service == s.services[id]
              && |r.value.openIncidents| == |OpenIncidentsOf(s, id)|
              && (forall inc :: inc in OpenIncidentsOf(s, id) ==>
                    exists i :: 0 <= i < |r.value.openIncidents| && r.value.openIncidents[i].incident == inc)
              && (forall i :: 0 <= i < |r.value.openIncidents| ==>
                    var v := r.value.openIncidents[i];
                    v.incident in OpenIncidentsOf(s, id)
                    && Selection(UpdatesOf(s, v.incident.id), UpdateNewestKey, Some(1), v.updates))
  {
    var access := ServiceAccess(s, id, userId);
    if access.Failure? {
      return Failure(access.error);
    }
    var incs := SortAndTake(OpenIncidentsOf(s, id), IncidentNewestKey, None);
    SelectionWithoutLimitIsComplete(OpenIncidentsOf(s, id), IncidentNewestKey, incs);
    var views := BuildViews(s, incs, Some(1));
    r := Success(ServiceDetail(access.value, views));
    forall inc | inc in OpenIncidentsOf(s, id)
      ensures exists i :: 0 <= i < |views| && views[i].incident == inc
    {
      var i :| 0 <= i < |incs| && incs[i] == inc;
      assert views[i].incident == inc;
    }
  }

  /** PUT /services/:id: name required, other fields fall back as the handler prescribes. */
  function UpdateService(s: Store, id: Id, userId: Id, body: ServiceBody): (r: Result<(Store, Event), HttpError>)
    ensures !Truthy(body.name) ==> r == Failure(NameRequired)
    ensures Truthy(body.name) && !StatusCheckPasses(body.status) ==> r == Failure(InvalidStatus)
    ensures Truthy(body.name) && StatusCheckPasses(body.status) ==> AccessOrder(s, id, userId, r)
    ensures r.Success? <==> Truthy(body.name) && StatusCheckPasses(body.status) && MayAccess(s, id, userId)
    ensures r.Success? ==>
              var (s', ev) := r.value;
              && OnlyServicesChange(s, s')
              && OtherServicesKept(s, s', id)
              && id in s'.services
              && var before := s.services[id];
              var after := s'.services[id];
              && after.id == before.id && after.organizationId == before.organizationId && after.createdAt == before.createdAt
              && after.name == body.name.value
              && (Truthy(body.description) ==> after.description == body.description)
              && (!Truthy(body.description) ==> after.description.None?)
              && (Truthy(body.status) ==> ServiceStatusName(after.status) == body.status.value)
              && (!Truthy(body.status) ==> after.status == before.status)
              && (body.order.Some? ==> after.order == body.order.value)
              && (body.order.None? ==> after.order == before.order)
              && ev == Event(before.organizationId, ServiceUpdated, ServicePayload(after))
  {
    if !Truthy(body.name) then Failure(NameRequired)
    else if !StatusCheckPasses(body.status) then Failure(InvalidStatus)
    else match ServiceAccess(s, id, userId)
      case Failure(e) => Failure(e)
      case Success(before) =>
        var status := if Truthy(body.status) then ParseServiceStatus(body.status.value).value else before.status;
        var after := before.(
          name := body.name.value,
          description := if Truthy(body.description) then body.description else None,
          status := status,
          order := body.order.GetOr(before.order));
        Success((s.(services := s.services[id := after]),
                 Event(before.organizationId, ServiceUpdated, ServicePayload(after))))
  }

  /**
    PATCH /services/:id: every field present in the body is written, every
    absent one kept. An empty status escapes the handler's check and is
    then refused by the status column.
   */
  function PatchService(s: Store, id: Id, userId: Id, body: ServiceBody): (r: Result<(Store, Event), HttpError>)
    ensures !StatusCheckPasses(body.status) ==> r == Failure(InvalidStatus)
    ensures StatusCheckPasses(body.status) ==> AccessOrder(s, id, userId, r)
    ensures MayAccess(s, id, userId) && body.status == Some("") ==> r == Failure(EnumRejected)
    ensures r.Success? <==> StatusCheckPasses(body.status) && body.status != Some("") && MayAccess(s, id, userId)
    ensures r.Success? ==>
              var (s', ev) := r.value;
              && OnlyServicesChange(s, s')
              && OtherServicesKept(s, s', id)
              && id in s'.services
              && var before := s.services[id];
              var after := s'.services[id];
              && after.id == before.id && after.organizationId == before.organizationId && after.createdAt == before.createdAt
              && (body.name.Some? ==> after.name == body.name.value)
              && (body.name.None? ==> after.name == before.name)
              && (body.description.Some? ==> after.description == body.description)
              && (body.description.None? ==> after.description == before.description)
              && (body.status.Some? ==> ServiceStatusName(after.status) == body.status.value)
              && (body.status.None? ==> after.status == before.status)
              && (body.order.Some? ==> after.order == body.order.value)
              && (body.order.None? ==> after.order == before.order)
              && ev == Event(before.organizationId, ServiceUpdated, ServicePayload(after))
  {
    if !StatusCheckPasses(body.status) then Failure(InvalidStatus)
    else match ServiceAccess(s, id, userId)
      case Failure(e) => Failure(e)
      case Success(before) =>
        if body.status == Some("") then Failure(EnumRejected)
        else
          var after := before.(
            name := body.name.GetOr(before.name),
            description := if body.description.Some? then body.description else before.description,
            status := if body.status.Some? then ParseServiceStatus(body.status.value).value else before.status,
            order := body.order.GetOr(before.order));
          Success((s.(services := s.services[id := after]),
                   Event(before.organizationId, ServiceUpdated, ServicePayload(after))))
  }

  /** PATCH /services/:id/status: a required, valid status and nothing else is written. */
  function UpdateServiceStatus(s: Store, id: Id, userId: Id, status: Option<string>)
    : (r: Result<(Store, Event), HttpError>)
    ensures !Truthy(status) ==> r == Failure(StatusRequired)
    ensures Truthy(status) && status.value !in ValidServiceStatuses ==> r == Failure(InvalidStatus)
    ensures Truthy(status) && status.value in ValidServiceStatuses ==> AccessOrder(s, id, userId, r)
    ensures r.Success? <==> Truthy(status) && status.value in ValidServiceStatuses && MayAccess(s, id, userId)
    ensures r.Success? ==>
              var (s', ev) := r.value;
              && OnlyServicesChange(s, s')
              && OtherServicesKept(s, s', id)
              && id in s'.services
              && var before := s.services[id];
              var after := s'.services[id];
              && after == before.(status := after.status)
              && ServiceStatusName(after.status) == status.value
              && ev == Event(before.organizationId, ServiceUpdated, StatusChangePayload(after, before.status, after.status))
  {
    if !Truthy(status) then Failure(StatusRequired)
    else match ParseServiceStatus(status.value)
      case None => Failure(InvalidStatus)
      case Some(st) =>
        match ServiceAccess(s, id, userId)
        case Failure(e) => Failure(e)
        case Success(before) =>
          var after := before.(status := st);
          Success((s.(services := s.services[id := after]),
                   Event(before.organizationId, ServiceUpdated, StatusChangePayload(after, before.status, st))))
  }

  /** The incident `incidentId` is stored and belongs to service `serviceId`. */
  predicate IncidentOfService(s: Store, serviceId: Id, incidentId: Id) {
    incidentId in s.incidents && s.incidents[incidentId].serviceId == serviceId
  }

  /**
    DELETE /services/:id: the service goes, and with it (by cascade) its
    incidents and their updates.
   */
  function DeleteService(s: Store, id: Id, userId: Id): (r: Result<(Store, Event), HttpError>)
    ensures AccessOrder(s, id, userId, r)
    ensures r.Success? <==> MayAccess(s, id, userId)
    ensures r.Success? ==>
              var (s', ev) := r.value;
              && s'.orgs == s.orgs && s'.members == s.members
              && s'.services.Keys == s.services.Keys - {id}
              && (forall k :: k in s'.services ==> s'.services[k] == s.services[k])
              && (forall k :: k in s'.incidents <==> k in s.incidents && s.incidents[k].serviceId != id)
              && (forall k :: k in s'.incidents ==> s'.incidents[k] == s.incidents[k])
              && (forall k :: k in s'.updates <==>
                    k in s.updates && !IncidentOfService(s, id, s.updates[k].incidentId))
              && (forall k :: k in s'.updates ==> s'.updates[k] == s.updates[k])
              && ev == Event(s.services[id].organizationId, ServiceDeleted, ServiceRemovedPayload(id, s.services[id].name))
  {
    match ServiceAccess(s, id, userId)
    case Failure(e) => Failure(e)
    case Success(svc) =>
      var s' := s.(
        services := s.services - {id},
        incidents := map k | k in s.incidents && s.incidents[k].serviceId != id :: s.incidents[k],
        updates := map k | k in s.updates && !IncidentOfService(s, id, s.updates[k].incidentId) :: s.updates[k]);
      Success((s', Event(svc.organizationId, ServiceDeleted, ServiceRemovedPayload(id, svc.name))))
  }
}
