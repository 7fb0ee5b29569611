/**
  The store's referential constraints (see `Domain.Valid`) survive every
  successful mutation, and a worked scenario through the handlers.
 */
module StoreInvariants {
  import opened Wrappers
  import opened Domain
  import opened Events
  import opened ErrorHandler
  import Organizations
  import ServiceController
  import Incidents
  import PublicStatus

  // ---------------------------------------------------------------------------
  // Consistency is preserved
  // ---------------------------------------------------------------------------

  lemma CreateOrganizationKeepsValid(s: Store, caller: Organizations.Caller, name: Option<string>, slug: Option<string>,
                                     freshId: Id, now: nat)
    requires Valid(s)
    requires freshId !in s.orgs
    ensures var r := Organizations.CreateOrganization(s, caller, name, slug, freshId, now);
            r.Success? ==> Valid(r.value.0)
  {
    var r := Organizations.CreateOrganization(s, caller, name, slug, freshId, now);
    if r.Success? {
      Organizations.CreateKeepsSlugsUnique(s, caller, name, slug, freshId, now);
      var s' := r.value.0;
      forall m1, m2 | m1 in s'.members && m2 in s'.members
                      && m1.userId == m2.userId && m1.organizationId == m2.organizationId
        ensures m1 == m2
      {
        if m1 in s.members && m2 !in s.members {
          assert false;
        } else if m2 in s.members && m1 !in s.members {
          assert false;
        }
      }
    }
  }

  lemma CreateServiceKeepsValid(s: Store, orgId: Id, body: ServiceController.ServiceBody, freshId: Id, now: nat)
    requires Valid(s)
    requires freshId !in s.services
    ensures var r := ServiceController.CreateService(s, orgId, body, freshId, now);
            r.Success? ==> Valid(r.value.0)
  {
  }

  lemma UpdateServiceKeepsValid(s: Store, id: Id, userId: Id, body: ServiceController.ServiceBody)
    requires Valid(s)
    ensures var r := ServiceController.UpdateService(s, id, userId, body);
            r.Success? ==> Valid(r.value.0)
  {
  }

  lemma PatchServiceKeepsValid(s: Store, id: Id, userId: Id, body: ServiceController.ServiceBody)
    requires Valid(s)
    ensures var r := ServiceController.PatchService(s, id, userId, body);
            r.Success? ==> Valid(r.value.0)
  {
  }

  lemma UpdateServiceStatusKeepsValid(s: Store, id: Id, userId: Id, status: Option<string>)
    requires Valid(s)
    ensures var r := ServiceController.UpdateServiceStatus(s, id, userId, status);
            r.Success? ==> Valid(r.value.0)
  {
  }

  /** The cascade leaves no incident without its service and no update without its incident. */
  lemma DeleteServiceKeepsValid(s: Store, id: Id, userId: Id)
    requires Valid(s)
    ensures var r := ServiceController.DeleteService(s, id, userId);
            r.Success? ==> Valid(r.value.0)
  {
    var r := ServiceController.DeleteService(s, id, userId);
    if r.Success? {
      var s' := r.value.0;
      forall k | k in s'.updates
        ensures s'.updates[k].incidentId in s'.incidents
      {
        var iid := s.updates[k].incidentId;
        assert !ServiceController.IncidentOfService(s, id, iid);
      }
    }
  }

  lemma CreateIncidentKeepsValid(s: Store, orgId: Id, body: Incidents.NewIncidentBody,
                                 freshIncident: Id, freshUpdate: Id, now: nat)
    requires Valid(s)
    requires freshIncident !in s.incidents
    requires freshUpdate !in s.updates
    ensures var r := Incidents.CreateIncident(s, orgId, body, freshIncident, freshUpdate, now);
            r.Success? ==> Valid(r.value.0)
  {
    var r := Incidents.CreateIncident(s, orgId, body, freshIncident, freshUpdate, now);
    if r.Success? {
      var s' := r.value.0;
      var sid := s'.incidents[freshIncident].serviceId;
      assert s'.services.Keys == s.services.Keys;
      assert forall k :: k in s'.services ==>
        s'.services[k].id == s.services[k].id && s'.services[k].organizationId == s.services[k].organizationId;
      assert ServicesValid(s');
      assert IncidentsValid(s') by {
        forall k | k in s'.incidents
          ensures s'.incidents[k].id == k && s'.incidents[k].serviceId in s'.services
          ensures s'.incidents[k].organizationId == s'.services[s'.incidents[k].serviceId].organizationId
        {
          if k != freshIncident {
            assert s'.incidents[k] == s.incidents[k];
          }
        }
      }
      assert UpdatesValid(s') by {
        forall k | k in s'.updates
          ensures s'.updates[k].id == k && s'.updates[k].incidentId in s'.incidents
        {
          if k != freshUpdate {
            assert s'.updates[k] == s.updates[k];
          }
        }
      }
    }
  }

  lemma PatchIncidentKeepsValid(s: Store, id: Id, userId: Id, body: Incidents.IncidentPatch, now: nat)
    requires Valid(s)
    ensures var r := Incidents.PatchIncident(s, id, userId, body, now);
            r.Success? ==> Valid(r.value.0)
  {
  }

  lemma AddIncidentUpdateKeepsValid(s: Store, id: Id, userId: Id, message: Option<string>, status: Option<string>,
                                    freshUpdate: Id, now: nat)
    requires Valid(s)
    requires freshUpdate !in s.updates
    ensures var r := Incidents.AddIncidentUpdate(s, id, userId, message, status, freshUpdate, now);
            r.Success? ==> Valid(r.value.0)
  {
  }

  /**
    On a consistent store an incident's service always exists, so resolving
    an incident a member may patch with valid values never fails.
   */
  lemma ResolveSucceedsOnValidStore(s: Store, id: Id, userId: Id, body: Incidents.IncidentPatch, now: nat)
    requires Valid(s)
    requires Incidents.MayAccessIncident(s, id, userId) && Incidents.PatchValuesValid(body)
    ensures Incidents.PatchIncident(s, id, userId, body, now).Success?
  {
  }

  // ---------------------------------------------------------------------------
  // The incident life cycle as seen from the status page
  // ---------------------------------------------------------------------------

  /**
    A CRITICAL incident on a service puts that service, and so every page
    listing it, in major outage, whatever valid status the incident opens with.
   */
  lemma CriticalIncidentMeansMajorOutage(s: Store, orgId: Id, body: Incidents.NewIncidentBody,
                                         freshIncident: Id, freshUpdate: Id, now: nat)
    requires freshIncident !in s.incidents
    requires freshUpdate !in s.updates
    requires Truthy(body.title) && Truthy(body.serviceId) && Incidents.ServiceInOrg(s, body.serviceId.value, orgId)
    requires body.impact == Some("CRITICAL")
    requires ParseIncidentStatus(Incidents.RequestedStatus(body)).Some?
    ensures var r := Incidents.CreateIncident(s, orgId, body, freshIncident, freshUpdate, now);
            && r.Success?
            && var s' := r.value.0;
            && (body.status.None? ==> s'.incidents[freshIncident].status == Investigating)
            && s'.services[body.serviceId.value].status == MajorOutage
            && forall svcs :: s'.services[body.serviceId.value] in svcs ==>
                 PublicStatus.OverallStatus(svcs) == PublicStatus.MajorOutageLabel
  {
    assert ParseImpact("CRITICAL") == Some(Critical);
    assert ParseIncidentStatus("INVESTIGATING") == Some(Investigating);
  }

  /** Resolving puts the service back to OPERATIONAL and stamps the incident. */
  lemma ResolveRestoresOperational(s: Store, id: Id, userId: Id, now: nat)
    requires Valid(s)
    requires Incidents.MayAccessIncident(s, id, userId)
    ensures var r := Incidents.PatchIncident(s, id, userId, Incidents.IncidentPatch(Some("RESOLVED"), None, None), now);
            && r.Success?
            && var s' := r.value.0;
            && s'.incidents[id].status == Resolved
            && s'.incidents[id].resolvedAt == Some(now)
            && s'.services[s.incidents[id].serviceId].status == Operational
            && r.value.1.kind == IncidentResolved
  {
    assert ParseIncidentStatus("RESOLVED") == Some(Resolved);
  }

  /**
    The first two steps of a new page: the organization, then a service in
    it that names neither status nor order and so gets the defaults.
   */
  lemma AcmeSetup()
    ensures
      var caller := Organizations.Caller("user-1", Some("ops@acme.test"));
      var r1 := Organizations.CreateOrganization(EmptyStore, caller, Some("Acme"), Some("acme"), "org-1", 0);
      && r1.Success?
      && var s1 := r1.value.0;
      && Valid(s1)
      && IsMember(s1, "user-1", "org-1")
      && var r2 := ServiceController.CreateService(s1, "org-1",
                     ServiceController.ServiceBody(Some("API"), None, None, None), "svc-1", 1);
      && r2.Success?
      && var s2 := r2.value.0;
      && Valid(s2)
      && IsMember(s2, "user-1", "org-1")
      && s2.services["svc-1"].status == Operational
      && s2.services["svc-1"].order == 0
      && s2.services["svc-1"].organizationId == "org-1"
      && s2.incidents == map[]
  {
    var caller := Organizations.Caller("user-1", Some("ops@acme.test"));
    EmptyStoreValid();
    var r1 := Organizations.CreateOrganization(EmptyStore, caller, Some("Acme"), Some("acme"), "org-1", 0);
    CreateOrganizationKeepsValid(EmptyStore, caller, Some("Acme"), Some("acme"), "org-1", 0);
    var s1 := r1.value.0;
    assert Organizations.AdminMember(caller, "org-1") in s1.members;
    var body := ServiceController.ServiceBody(Some("API"), None, None, None);
    CreateServiceKeepsValid(s1, "org-1", body, "svc-1", 1);
    var s2 := ServiceController.CreateService(s1, "org-1", body, "svc-1", 1).value.0;
    assert Organizations.AdminMember(caller, "org-1") in s2.members;
  }

  /** The store after the two setup steps. */
  function AcmeStore(): Store {
    var caller := Organizations.Caller("user-1", Some("ops@acme.test"));
    var r1 := Organizations.CreateOrganization(EmptyStore, caller, Some("Acme"), Some("acme"), "org-1", 0);
    if r1.Failure? then EmptyStore
    else
      var r2 := ServiceController.CreateService(r1.value.0, "org-1",
                  ServiceController.ServiceBody(Some("API"), None, None, None), "svc-1", 1);
      if r2.Failure? then r1.value.0 else r2.value.0
  }

  /**
    Acme's API service, OPERATIONAL, gets a CRITICAL incident: it goes to
    MAJOR_OUTAGE. Resolving the incident brings it back to OPERATIONAL and
    stamps the resolution time.
   */
  lemma AcmeScenario()
    ensures
      var s2 := AcmeStore();
      && s2.services["svc-1"].status == Operational
      && var r3 := Incidents.CreateIncident(s2, "org-1",
                     Incidents.NewIncidentBody(Some("API down"), Some("svc-1"), Some("CRITICAL"), None, Some("Looking into it")),
                     "inc-1", "upd-1", 2);
      && r3.Success?
      && var s3 := r3.value.0;
      && s3.services["svc-1"].status == MajorOutage
      && var r4 := Incidents.PatchIncident(s3, "inc-1", "user-1", Incidents.IncidentPatch(Some("RESOLVED"), None, None), 3);
      && r4.Success?
      && var s4 := r4.value.0;
      && s4.services["svc-1"].status == Operational
      && s4.incidents["inc-1"].resolvedAt == Some(3)
  {
    AcmeSetup();
    var s2 := AcmeStore();
    var body := Incidents.NewIncidentBody(Some("API down"), Some("svc-1"), Some("CRITICAL"), None, Some("Looking into it"));
    CriticalIncidentMeansMajorOutage(s2, "org-1", body, "inc-1", "upd-1", 2);
    CreateIncidentKeepsValid(s2, "org-1", body, "inc-1", "upd-1", 2);
    var s3 := Incidents.CreateIncident(s2, "org-1", body, "inc-1", "upd-1", 2).value.0;
    assert s3.members == s2.members;
    ResolveRestoresOperational(s3, "inc-1", "user-1", 3);
  }
}
