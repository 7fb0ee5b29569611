/**
  The records of the status page and the tenant-scoped store that holds them.

  The store plays the part of the relational database: one finite map per
  table keyed by record id, and a set of memberships (unique per user and
  organization). `Valid` collects the referential constraints the database
  enforces; every mutating operation is proved to preserve it.
 */
module Domain {
  import opened Wrappers

  type Id = string

  // ---------------------------------------------------------------------------
  // Enumerations and their wire names
  // ---------------------------------------------------------------------------

  datatype ServiceStatus =
    | Operational
    | DegradedPerformance
    | PartialOutage
    | MajorOutage
    | UnderMaintenance

  datatype IncidentStatus = Investigating | Identified | Monitoring | Resolved

  datatype Impact = Minor | Major | Critical

  /** Only ADMIN is ever assigned by the handlers; other roles are opaque names. */
  datatype Role = Admin | OtherRole(name: string)

  function ServiceStatusName(st: ServiceStatus): string {
    match st
    case Operational => "OPERATIONAL"
    case DegradedPerformance => "DEGRADED_PERFORMANCE"
    case PartialOutage => "PARTIAL_OUTAGE"
    case MajorOutage => "MAJOR_OUTAGE"
    case UnderMaintenance => "UNDER_MAINTENANCE"
  }

  /** The list the service handlers check a requested status against. */
  const ValidServiceStatuses: seq<string> :=
    ["OPERATIONAL", "DEGRADED_PERFORMANCE", "PARTIAL_OUTAGE", "MAJOR_OUTAGE", "UNDER_MAINTENANCE"]

  /** Reads a wire string as a service status; only the five names are accepted. */
  function ParseServiceStatus(raw: string): (r: Option<ServiceStatus>)
    ensures r.Some? <==> raw in ValidServiceStatuses
    ensures r.Some? ==> ServiceStatusName(r.value) == raw
  {
    if raw == "OPERATIONAL" then Some(Operational)
    else if raw == "DEGRADED_PERFORMANCE" then Some(DegradedPerformance)
    else if raw == "PARTIAL_OUTAGE" then Some(PartialOutage)
    else if raw == "MAJOR_OUTAGE" then Some(MajorOutage)
    else if raw == "UNDER_MAINTENANCE" then Some(UnderMaintenance)
    else None
  }

  lemma ServiceStatusRoundTrip(st: ServiceStatus)
    ensures ParseServiceStatus(ServiceStatusName(st)) == Some(st)
    ensures ServiceStatusName(st) in ValidServiceStatuses
  {
  }

  function IncidentStatusName(st: IncidentStatus): string {
    match st
    case Investigating => "INVESTIGATING"
    case Identified => "IDENTIFIED"
    case Monitoring => "MONITORING"
    case Resolved => "RESOLVED"
  }

  /** Reads a wire string as an incident status (the database enum's check). */
  function ParseIncidentStatus(raw: string): (r: Option<IncidentStatus>)
    ensures r.Some? ==> IncidentStatusName(r.value) == raw
    ensures r.None? ==> forall st :: IncidentStatusName(st) != raw
  {
    if raw == "INVESTIGATING" then Some(Investigating)
    else if raw == "IDENTIFIED" then Some(Identified)
    else if raw == "MONITORING" then Some(Monitoring)
    else if raw == "RESOLVED" then Some(Resolved)
    else None
  }

  lemma IncidentStatusRoundTrip(st: IncidentStatus)
    ensures ParseIncidentStatus(IncidentStatusName(st)) == Some(st)
  {
  }

  function ImpactName(i: Impact): string {
    match i
    case Minor => "MINOR"
    case Major => "MAJOR"
    case Critical => "CRITICAL"
  }

  /** Reads a wire string as an impact (the database enum's check). */
  function ParseImpact(raw: string): (r: Option<Impact>)
    ensures r.Some? ==> ImpactName(r.value) == raw
    ensures r.None? ==> forall i :: ImpactName(i) != raw
  {
    if raw == "MINOR" then Some(Minor)
    else if raw == "MAJOR" then Some(Major)
    else if raw == "CRITICAL" then Some(Critical)
    else None
  }

  lemma ImpactRoundTrip(i: Impact)
    ensures ParseImpact(ImpactName(i)) == Some(i)
  {
  }

  // ---------------------------------------------------------------------------
  // Request fields
  // ---------------------------------------------------------------------------

  /**
    JavaScript truthiness of a string-valued request field: an absent field
    and the empty string are both falsy.
   */
  predicate Truthy(f: Option<string>) {
    f.Some? && f.value != ""
  }

  // ---------------------------------------------------------------------------
  // Records
  // ---------------------------------------------------------------------------

  datatype Organization = Organization(id: Id, name: string, slug: string, createdAt: nat)

  datatype Member = Member(userId: Id, organizationId: Id, email: string, role: Role)

  /** `description == None` is the database's null. */
  datatype Service = Service(
    id: Id,
    name: string,
    description: Option<string>,
    status: ServiceStatus,
    order: int,
    organizationId: Id,
    createdAt: nat)

  datatype Incident = Incident(
    id: Id,
    title: string,
    status: IncidentStatus,
    impact: Impact,
    serviceId: Id,
    organizationId: Id,
    createdAt: nat,
    resolvedAt: Option<nat>)

  datatype IncidentUpdate = IncidentUpdate(
    id: Id,
    incidentId: Id,
    message: string,
    status: IncidentStatus,
    createdAt: nat)

  datatype Store = Store(
    orgs: map<Id, Organization>,
    members: set<Member>,
    services: map<Id, Service>,
    incidents: map<Id, Incident>,
    updates: map<Id, IncidentUpdate>)

  const EmptyStore: Store := Store(map[], {}, map[], map[], map[])

  // ---------------------------------------------------------------------------
  // Queries shared by the handlers
  // ---------------------------------------------------------------------------

  /** Some membership links `userId` to `orgId`. */
  predicate IsMember(s: Store, userId: Id, orgId: Id) {
    exists m :: m in s.members && m.userId == userId && m.organizationId == orgId
  }

  predicate SlugTaken(s: Store, slug: string) {
    exists id :: id in s.orgs && s.orgs[id].slug == slug
  }

  /** Same service ids, and every service other than `id` is untouched. */
  predicate OtherServicesKept(s: Store, s': Store, id: Id) {
    && s'.services.Keys == s.services.Keys
    && forall k :: k in s.services && k != id ==> s'.services[k] == s.services[k]
  }

  /** Same incident ids, and every incident other than `id` is untouched. */
  predicate OtherIncidentsKept(s: Store, s': Store, id: Id) {
    && s'.incidents.Keys == s.incidents.Keys
    && forall k :: k in s.incidents && k != id ==> s'.incidents[k] == s.incidents[k]
  }

  /** Every update of `s` is still there, unchanged (the history is append-only). */
  predicate UpdatesKept(s: Store, s': Store) {
    forall k :: k in s.updates ==> k in s'.updates && s'.updates[k] == s.updates[k]
  }

  // ---------------------------------------------------------------------------
  // Referential constraints of the database
  // ---------------------------------------------------------------------------

  predicate OrgsKeyed(s: Store) {
    forall id :: id in s.orgs ==> s.orgs[id].id == id
  }

  predicate SlugsUnique(s: Store) {
    forall a, b :: a in s.orgs && b in s.orgs && s.orgs[a].slug == s.orgs[b].slug ==> a == b
  }

  predicate MembersValid(s: Store) {
    && (forall m :: m in s.members ==> m.organizationId in s.orgs)
    && (forall m1, m2 ::
          (m1 in s.members && m2 in s.members
           && m1.userId == m2.userId && m1.organizationId == m2.organizationId) ==> m1 == m2)
  }

  predicate ServicesValid(s: Store) {
    forall id :: id in s.services ==>
      s.services[id].id == id && s.services[id].organizationId in s.orgs
  }

  /** Every incident belongs to a stored service and to that service's organization. */
  predicate IncidentsValid(s: Store) {
    forall id :: id in s.incidents ==>
      && s.incidents[id].id == id
      && s.incidents[id].serviceId in s.services
      && s.incidents[id].organizationId == s.services[s.incidents[id].serviceId].organizationId
  }

  predicate UpdatesValid(s: Store) {
    forall id :: id in s.updates ==>
      s.updates[id].id == id && s.updates[id].incidentId in s.incidents
  }

  predicate Valid(s: Store) {
    && OrgsKeyed(s)
    && SlugsUnique(s)
    && MembersValid(s)
    && ServicesValid(s)
    && IncidentsValid(s)
    && UpdatesValid(s)
  }

  lemma EmptyStoreValid()
    ensures Valid(EmptyStore)
  {
  }
}
