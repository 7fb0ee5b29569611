# status-page, modelled in Dafny

A multi-tenant status page. Organizations own services, and each service has
one of five statuses. Incidents are opened against a service and carry an
append-only history of updates. Members of an organization manage both. An
unauthenticated page, found by the organization's slug, shows an overall
label, the services, the unresolved incidents and a history of resolved ones.
The dashboard keeps local copies of the service and incident lists and
splices each mutation's answer into them.

The model is a pure state machine over one store of finite maps (`Domain.Store`):

- organizations, services, incidents and incident updates are keyed by id;
- members form a set, unique per (user, organization).

Each HTTP handler is one function or method from the store and the request
to one of two answers:

- `Failure` with the HTTP status and error text the handler sends; or
- `Success` with the new store and the socket event the handler broadcasts.

The read-only queries return the rows they select, in their order.

Modules:

- `wrappers.dfy`: `Option` and `Result`.
- `domain.dfy`: the records and the enumerations with their wire names. It also holds JS truthiness of an optional body field (`Truthy`) and the store's referential constraints (`Valid`).
- `events.dfy`: the six socket event names and the per-organization room.
- `error_handler.dfy`: the error-name classification of the error middleware.
- `tenant.dfy`: the organization-access middleware. It covers the deployed permissive version and the stricter membership-checking variant that the source keeps commented out.
- `sorting.dfy`, `views.dfy`: the `orderBy` / `take` behaviour of the queries. It is given as a generic "sorted, complete up to the limit" selection.
- `service_controller.dfy`, `incidents.dfy`, `organizations.dfy`, `public_status.dfy`: the handlers.
- `status_labels.dfy`: the dashboard's colour and text maps.
- `list_hooks.dfy`: the list splicing in the two dashboard hooks.
- `invariants.dfy`: every mutation preserves `Valid`. It also holds a worked incident life cycle.

Conventions:

- Fresh ids and clock readings are parameters of the operations. That an id is fresh is a precondition.
- Request-body fields are `Option<string>`, where `None` is an absent field. This keeps JS truthiness visible: `''` is present but falsy.

Where the database itself refuses a write, the model returns the answer the
error middleware gives for the error the database raises.

- A string outside an enumeration written to a status or impact column raises a client validation error. The answer is 400 "Validation error" with the message "Invalid data provided" (`ErrorHandler.EnumRejected`).
- A missing referenced row raises a known request error. The answer is 400 "Database error" with the database's own message (`ErrorHandler.RowRejected`).

This assumes the database schema declares the status and impact columns as
enums, as the frontend types do. Deleting a service deletes its incidents by
cascade, as the delete handler relies on; the model also assumes that
deleting an incident deletes its updates by cascade, which
`StoreInvariants.DeleteServiceKeepsValid` depends on. The schema file is not
part of this model.

Behaviours of the code that are easy to miss, which the model follows:

- PATCH /services/:id with `status: ''` skips the handler's validity check, because `''` is falsy, and hands `''` to the status column. An enum column cannot hold `''`, so the model answers 400 "Validation error" (`ServiceController.PatchService`). The same holds for an empty impact or status in incident create, where the defaults apply only to absent fields. Incident patch writes only truthy fields, so there `''` is skipped, not refused.
- The deployed tenant middleware checks no membership. Any caller who names an organization id gets through, and so `createService` can be asked to create a service in an organization that does not exist. The foreign key then refuses it.
- The history query orders by `resolvedAt` descending. The model assumes the database puts missing values first under a descending order, as PostgreSQL does by default (`PublicStatus.HistoryKey`); MySQL and SQLite put them last. An update with RESOLVED (POST /incidents/:id/updates) does not stamp `resolvedAt`. An incident resolved only that way has none, so under this assumption it is listed ahead of every stamped one. An incident resolved by PATCH keeps its stamp, even when it is later reopened and then resolved through an update.
- Incident creation overwrites the service status from the impact, and resolution resets it to OPERATIONAL. Neither looks at the service's other open incidents.

## Model

| member | source | states |
|---|---|---|
| Domain.ParseServiceStatus | backend/src/controllers/serviceController.ts:19-25 | a status string is accepted exactly when it is one of the five wire names, and then names the status it parses to |
| Domain.ServiceStatusRoundTrip | backend/src/controllers/serviceController.ts:19-25 | printing a service status and parsing it back gives the same status, and the name is in the accepted list |
| Domain.ParseIncidentStatus | frontend/src/types/index.ts:44-48 | a parsed incident status prints back to the input; a refused string is no status's name |
| Domain.IncidentStatusRoundTrip | frontend/src/types/index.ts:44-48 | printing an incident status and parsing it back gives the same status |
| Domain.ParseImpact | frontend/src/types/index.ts:50 | a parsed impact prints back to the input; a refused string is no impact's name |
| Domain.ImpactRoundTrip | frontend/src/types/index.ts:50 | printing an impact and parsing it back gives the same impact |
| Domain.EmptyStoreValid | backend/src/routes/organizations.ts:39-54 | the empty store meets every referential constraint that organization, service, incident and update rows are created under |
| Events.WireNamesDistinct | backend/src/services/websocket.ts:6-13 | the six event kinds have six different wire names |
| Events.RoomsSeparateOrganizations | backend/src/services/websocket.ts:18-28 | two organizations never share a broadcast room |
| ErrorHandler.Handle | backend/src/middleware/errorHandler.ts:10-48 | the three known error names answer 400, each with its own error text and message, and every other error answers 500; the raw message and the stack are exposed only when the environment is development |
| ErrorHandler.StatusDependsOnlyOnName | backend/src/middleware/errorHandler.ts:19-47 | the status and error text depend on the error's name alone, never on message, stack or environment |
| ErrorHandler.DatabaseRejection | backend/src/middleware/errorHandler.ts:18-32 | with NODE_ENV unset, an error raised by the database is classified like any other thrown error: 400 for the known names, 500 otherwise, never with a stack; the answer keeps the error text and the message, which is the error's own for a known request error and "Invalid data provided" for a validation error |
| ErrorHandler.DatabaseRejectionsAreBadRequests | backend/src/middleware/errorHandler.ts:19-32 | an enum refusal answers 400 "Validation error" with "Invalid data provided", and a foreign-key refusal 400 "Database error" |
| Tenant.RequireOrganizationAccess | backend/src/middleware/tenant.ts:8-85 | the organization id is the route parameter when truthy, else the query value; 400 when both are falsy; the deployed strategy lets every other request through; the membership strategy of the commented-out variant (lines 40-85) answers 401 without a user, 403 "Access denied" with "You are not a member of this organization" for a non-member, and admits only members |
| Tenant.DeployedMiddlewareIgnoresMembership | backend/src/middleware/tenant.ts:13-27 | under the deployed middleware a caller who is not a member, or not signed in at all, still gets the organization id |
| ServiceController.CreateService | backend/src/controllers/serviceController.ts:9-46 | 400 without a truthy name, 400 with the valid-status list for a truthy unknown status, 400 from the database for an empty status or an unknown organization; otherwise exactly one service is added, with the request's organization, the defaults OPERATIONAL and order 0 for absent fields, nothing else changes, and SERVICE_CREATED is emitted |
| ServiceController.GetServices | backend/src/controllers/serviceController.ts:52-72 | exactly the organization's services, by order ascending and then newest first, each with the number of its incidents that are not RESOLVED |
| ServiceController.ServiceListKeyMeansListedBefore | backend/src/controllers/serviceController.ts:57 | the sort key puts one service before another exactly when its order is lower, or equal with a creation time no earlier |
| ServiceController.ServiceAccess | backend/src/controllers/serviceController.ts:103-114 | 404 for an unknown service before 403 for a non-member of its organization; otherwise the stored service |
| ServiceController.GetServiceById | backend/src/controllers/serviceController.ts:78-117 | the 404/403 order; the service with all its unresolved incidents, each carrying only its latest update |
| ServiceController.UpdateService | backend/src/controllers/serviceController.ts:123-179 | name and status checks run before the 404/403 checks; a truthy name is written; a falsy status keeps the old one; a falsy description becomes null; an absent order keeps the old one; id, organization and creation time never change; no other row changes; SERVICE_UPDATED carries the new row |
| ServiceController.PatchService | backend/src/controllers/serviceController.ts:185-238 | the status check runs before the 404/403 checks; every field present in the body is written and every absent one kept; an empty status passes the check but the column refuses it; no other row changes |
| ServiceController.UpdateServiceStatus | backend/src/controllers/serviceController.ts:244-299 | 400 without a status or with an unknown one, then 404/403; only the status changes, and the event reports the previous and the new status |
| ServiceController.DeleteService | backend/src/controllers/serviceController.ts:305-349 | the 404/403 order; the service goes, its incidents and their updates go with it by cascade, every other row stays as it was, and SERVICE_DELETED carries the id and name |
| Incidents.ImpactServiceStatusFacts | backend/src/routes/incidents.ts:131-136 | each impact imposes a different service status, never OPERATIONAL or UNDER_MAINTENANCE, and MAJOR_OUTAGE exactly for CRITICAL |
| Incidents.CreateIncident | backend/src/routes/incidents.ts:82-152 | 400 without title or service id; 404 unless the service belongs to the request's organization; impact and status default to MINOR and INVESTIGATING; an initial update carrying the incident's status is added exactly when a message is given; the service's status is set from the impact whatever its other incidents; INCIDENT_CREATED is emitted |
| Incidents.PatchIncident | backend/src/routes/incidents.ts:158-221 | 404 then 403; only truthy fields among status, title and impact are written; exactly a patch to RESOLVED stamps resolvedAt, resets the service to OPERATIONAL and emits INCIDENT_RESOLVED; any other patch leaves services and resolvedAt alone and emits INCIDENT_UPDATED |
| Incidents.AddIncidentUpdate | backend/src/routes/incidents.ts:227-282 | 400 without message and status, then 404/403; exactly one update is appended, the incident takes its status, and no service and no resolvedAt changes, even for RESOLVED |
| Incidents.ListIncidents | backend/src/routes/incidents.ts:14-37 | exactly the organization's incidents, restricted to the status filter when it is truthy, newest first, each with all its updates newest first |
| Incidents.GetIncident | backend/src/routes/incidents.ts:43-76 | 404 then 403; the incident with its whole update history, oldest first |
| PublicStatus.OverallStatus | backend/src/routes/public.ts:48-64 | "Major Outage" exactly when some service is in major outage; else "Degraded Performance" exactly when some service is degraded or partially out; else "Under Maintenance" exactly when one is in maintenance; "All Systems Operational" exactly when every service is operational |
| PublicStatus.OverallStatusIsWorstSeverity | backend/src/routes/public.ts:48-64 | the precedence chain equals the label of the worst status present, computed independently |
| PublicStatus.OverallStatusIgnoresOrder | backend/src/routes/public.ts:48-56 | the label depends only on which services are listed, not on their order or repetition |
| PublicStatus.NoServicesMeansAllOperational | backend/src/routes/public.ts:58-64 | an organization without services reads "All Systems Operational" |
| PublicStatus.FindBySlug | backend/src/routes/public.ts:17-18 | an organization is found exactly when one has that slug |
| PublicStatus.GetPublicStatus | backend/src/routes/public.ts:11-78 | 404 for an unknown slug; otherwise the organization's services in list order, the overall label of exactly those services, and exactly its unresolved incidents newest first, each with at most its five newest updates |
| PublicStatus.HistoryKeyMeansResolvedNoEarlier | backend/src/routes/public.ts:109 | the history order puts an incident first exactly when it has no resolution time or was resolved no earlier, assuming the PostgreSQL placement of missing values under a descending order |
| PublicStatus.GetHistory | backend/src/routes/public.ts:84-115 | 404 for an unknown slug; otherwise at most `limit` (default 10) of the organization's RESOLVED incidents, latest resolution first, with none left out that sorts before a listed one, each with all its updates newest first |
| Organizations.CreateOrganization | backend/src/routes/organizations.ts:13-58 | 400 without name or slug, 409 for a taken slug; otherwise one organization is added with the caller as its one ADMIN member, whose e-mail is the profile's or empty, and nothing else changes |
| Organizations.CreatorIsOnlyMember | backend/src/routes/organizations.ts:39-54 | on a consistent store the new organization has exactly one member, the caller, as ADMIN |
| Organizations.CreateKeepsSlugsUnique | backend/src/routes/organizations.ts:28-36 | after a successful creation no two organizations share a slug |
| Organizations.RefusedCreationChangesNothing | backend/src/routes/organizations.ts:32-36 | a taken slug always answers 409 and yields no new store |
| Organizations.ListOrganizations | backend/src/routes/organizations.ts:64-93 | one entry per membership of the caller, each with the membership's role and the organization's service and incident counts |
| Organizations.ListedExactlyWhereMember | backend/src/routes/organizations.ts:70-91 | on a consistent store an organization is listed exactly when the caller is a member of it |
| Organizations.GetOrganization | backend/src/routes/organizations.ts:99-137 | 403 exactly when the caller has no membership for that id; otherwise the organization with its members and counts, or null when it does not exist |
| Organizations.GetAgreesWithListing | backend/src/routes/organizations.ts:63-137 | on a consistent store an organization can be fetched exactly when it appears in the caller's listing, and the fetch reports the same organization and counts |
| StatusLabels.ServiceStatusColor | frontend/src/lib/utils.ts:7-16 | both outages share "outage", and that colour appears for nothing else; degradation and maintenance have their own colours; every unknown string shows "operational" |
| StatusLabels.ServiceStatusText | frontend/src/lib/utils.ts:18-27 | an unknown string is shown as it is; a known status is never shown as its raw wire name |
| StatusLabels.ServiceStatusTextsDistinct | frontend/src/lib/utils.ts:18-27 | the five statuses have five different texts |
| StatusLabels.OutagesShareColourNotText | frontend/src/lib/utils.ts:7-27 | partial and major outage have the same colour but different texts |
| StatusLabels.IncidentStatusColor | frontend/src/lib/utils.ts:29-37 | an unknown incident status shows the INVESTIGATING colour |
| StatusLabels.IncidentStatusColoursDistinct | frontend/src/lib/utils.ts:29-37 | the four incident statuses have four different colours |
| StatusLabels.ImpactColor | frontend/src/lib/utils.ts:39-46 | an unknown impact shows the MINOR colour |
| StatusLabels.ImpactColoursDistinct | frontend/src/lib/utils.ts:39-46 | the three impacts have three different colours |
| StatusLabels.TextsAgreeWithOverallLabels | frontend/src/lib/utils.ts:18-27 | for major outage, degraded performance and maintenance the dashboard text equals the status page's overall label for a page with that one service |
| ListHooks.CreateServiceInList | frontend/src/hooks/useServices.ts:29-33 | on success the new service is appended and the earlier ones stay, in order; a failed call leaves the list as it was |
| ListHooks.UpdateServiceInList | frontend/src/hooks/useServices.ts:35-39 | on success every entry with the id is replaced by the answer and every other entry stays in place; a failed call changes nothing |
| ListHooks.DeleteServiceFromList | frontend/src/hooks/useServices.ts:41-44 | on success the entries with the id go and every other entry stays, as often as it was listed, in the filter's order; a failed call changes nothing |
| ListHooks.DeleteKeepsOthersInOrder | frontend/src/hooks/useServices.ts:41-44 | cut the list anywhere: after a successful delete the survivors of the first part come before those of the second |
| ListHooks.CreateIncidentInList | frontend/src/hooks/useIncidents.ts:29-33 | on success the new incident comes first and the rest follow unchanged; a failed call changes nothing |
| ListHooks.UpdateIncidentInList | frontend/src/hooks/useIncidents.ts:35-39 | on success every entry with the id is replaced by the answer and non-matching incidents stay in place; a failed call changes nothing |
| ListHooks.AddUpdate | frontend/src/hooks/useIncidents.ts:41-46 | the list is never spliced; a refetch is asked for exactly when the post succeeds |
| ListHooks.RemoveById | frontend/src/hooks/useServices.ts:43 | the filter keeps exactly the elements with another id and never lengthens the list |
| ListHooks.RemoveKeepsMultiplicity | frontend/src/hooks/useServices.ts:43 | the filter keeps each entry with another id as many times as it was listed, and none with the id |
| ListHooks.RemoveByIdOverConcat | frontend/src/hooks/useServices.ts:43 | filtering a concatenation filters each part, so survivors keep their relative order |
| ListHooks.RemoveIsIdempotent | frontend/src/hooks/useServices.ts:43 | filtering the same id twice is filtering it once |
| ListHooks.ReplaceKeepsIds | frontend/src/hooks/useServices.ts:37 | a replacement answered with the same id keeps every position's id, so a list with distinct ids keeps them distinct |
| ListHooks.CreateServiceKeepsIdsDistinct | frontend/src/hooks/useServices.ts:31 | appending a service with a new id keeps the list free of duplicate ids |
| ListHooks.CreateIncidentKeepsIdsDistinct | frontend/src/hooks/useIncidents.ts:31 | prepending an incident with a new id keeps the list free of duplicate ids |
| ListHooks.UpdatedServiceIsFound | frontend/src/hooks/useServices.ts:35-39 | after an update answered with the same id, the ids are unchanged and the entry with that id is the answer |
| ListHooks.DeletedServiceIsGone | frontend/src/hooks/useServices.ts:41-44 | after a delete no entry has the id, and deleting again changes nothing |
| StoreInvariants.CreateOrganizationKeepsValid | backend/src/routes/organizations.ts:13-58 | organization creation keeps the store consistent: unique slugs, members of stored organizations, one membership per user and organization |
| StoreInvariants.CreateServiceKeepsValid | backend/src/controllers/serviceController.ts:9-46 | service creation keeps every service in a stored organization |
| StoreInvariants.UpdateServiceKeepsValid | backend/src/controllers/serviceController.ts:123-179 | PUT keeps the store consistent |
| StoreInvariants.PatchServiceKeepsValid | backend/src/controllers/serviceController.ts:185-238 | PATCH keeps the store consistent |
| StoreInvariants.UpdateServiceStatusKeepsValid | backend/src/controllers/serviceController.ts:244-299 | the status route keeps the store consistent |
| StoreInvariants.DeleteServiceKeepsValid | backend/src/controllers/serviceController.ts:305-349 | after the cascade no incident lacks its service and no update lacks its incident |
| StoreInvariants.CreateIncidentKeepsValid | backend/src/routes/incidents.ts:82-152 | every created incident belongs to a stored service of the same organization, and its update to it |
| StoreInvariants.PatchIncidentKeepsValid | backend/src/routes/incidents.ts:158-221 | incident patches keep the store consistent |
| StoreInvariants.AddIncidentUpdateKeepsValid | backend/src/routes/incidents.ts:227-282 | appending an update keeps the store consistent |
| StoreInvariants.ResolveSucceedsOnValidStore | backend/src/routes/incidents.ts:199-204 | on a consistent store the service reset of a resolution always finds its service, so a permitted, valid patch never fails |
| StoreInvariants.CriticalIncidentMeansMajorOutage | backend/src/routes/incidents.ts:131-141 | a CRITICAL incident with any valid status puts its service in major outage, and every status page listing that service reads "Major Outage"; without a status it opens INVESTIGATING |
| StoreInvariants.ResolveRestoresOperational | backend/src/routes/incidents.ts:185-210 | resolving an incident marks it RESOLVED with the resolution time, resets its service to OPERATIONAL and emits INCIDENT_RESOLVED |
| StoreInvariants.AcmeSetup | backend/src/routes/organizations.ts:39-54 | creating organization Acme and then a service in it that names no status or order succeeds, gives the service OPERATIONAL and order 0, leaves a consistent store and makes the creator a member |
| StoreInvariants.AcmeScenario | backend/src/routes/incidents.ts:131-204 | in Acme, a CRITICAL incident takes the API service from OPERATIONAL to MAJOR_OUTAGE, and resolving it restores OPERATIONAL and stamps the resolution time |

## Left out

- Database and network I/O. The store stands in for the database. Each handler is one atomic step. The source's separate writes are not modelled, nor are concurrent requests interleaving between them (incident create followed by the service update, for example).
- Socket delivery. Each operation returns the event it would broadcast. Room joins, the added timestamp and swallowed emit errors are not modelled.
- Part of the `include`d relations. Modelled: the incidents and updates of a service by id, the updates of each listed or fetched incident, the incidents and updates of the public page and history, and the `_count` figures of the service and organization listings. Not modelled: the service inside an incident (incidents.ts:27, :53, :125, :194; public.ts:30, :104); the organization with its member list that GET /services/:id (serviceController.ts:85-88) and GET /incidents/:id (incidents.ts:54) return, which the model reads for the membership check but does not put in the answer; and the service and updates inside incident events.
- Console logging (errorHandler.ts:16, tenant.ts:25, websocket.ts:29 and :45) has no effect on any answer and is not modelled.
- Columns the handlers never read or write explicitly (`updatedAt`, database defaults) are not modelled.
- ServiceController.CreateService: `order` is an unbounded integer. The range of the database's `order` column is not modelled, so an order outside it succeeds here; a 32-bit integer column would refuse it with a 400. The column type lives in the schema, which is not part of this model.
- ServiceController.UpdateService: the same unbounded `order` as in creation; an out-of-range value is written instead of refused.
- ServiceController.PatchService: the same unbounded `order` as in creation; an out-of-range value is written instead of refused.
- JSON `null` and an absent field are both `None`. Non-string body values such as a numeric `name` are not modelled.
- `parseInt` of the history `limit`: the limit is a natural number or absent.
- Clock readings: the caller supplies them as numbers. `formatDate` is not modelled.
- The 500 answer of the tenant middleware's catch block, which needs a thrown error the model cannot produce.
- Authentication: the caller id is a parameter.
- The routing table, server bootstrap and `asyncHandler` are not part of this model.
- JavaScript object-prototype keys (`"constructor"`, `"toString"`) looked up in the dashboard's label maps: the model treats them as unknown strings.
- StatusLabels.IncidentStatusColor: states only the fallback. The injectivity on the four statuses is a separate lemma.
- StatusLabels.ImpactColor: states only the fallback. The injectivity on the three impacts is a separate lemma.
- ErrorHandler.RowRejected: the message of a known request error is the database client's own text, which the model cannot produce. The model carries the empty string there; status and error text are exact.
- StoreInvariants.AcmeScenario: covers one concrete run; the general facts are the lemmas it uses.
