/**
  The organization handlers: create (the caller becomes its ADMIN), list the
  caller's memberships, and get one organization for a member.
 */
module Organizations {
  import opened Wrappers
  import opened Domain
  import opened ErrorHandler

  /** The authenticated user; `email` is the profile e-mail when one is known. */
  datatype Caller = Caller(userId: Id, email: Option<string>)

  const NameAndSlugRequired := Reject(400, "Name and slug are required")
  const SlugExists := Reject(409, "Organization slug already exists")

  /** The created organization together with its member rows. */
  datatype OrgWithMembers = OrgWithMembers(organization: Organization, members: set<Member>)

  function MembersOf(s: Store, orgId: Id): set<Member> {
    set m | m in s.members && m.organizationId == orgId
  }

  /** The membership row that makes `caller` the ADMIN of `orgId`. */
  function AdminMember(caller: Caller, orgId: Id): Member {
    Member(caller.userId, orgId, if Truthy(caller.email) then caller.email.value else "", Admin)
  }

  /** POST /organizations */
  function CreateOrganization(s: Store, caller: Caller, name: Option<string>, slug: Option<string>, freshId: Id, now: nat)
    : (r: Result<(Store, OrgWithMembers), HttpError>)
    requires freshId !in s.orgs
    ensures !Truthy(name) || !Truthy(slug) ==> r == Failure(NameAndSlugRequired)
    ensures Truthy(name) && Truthy(slug) && SlugTaken(s, slug.value) ==> r == Failure(SlugExists)
    ensures r.Success? <==> Truthy(name) && Truthy(slug) && !SlugTaken(s, slug.value)
    ensures r.Success? ==>
              var (s', created) := r.value;
              var org := created.organization;
              && s'.services == s.services && s'.incidents == s.incidents && s'.updates == s.updates
              && s'.orgs.Keys == s.orgs.Keys + {freshId}
              && (forall k :: k in s.orgs ==> s'.orgs[k] == s.orgs[k])
              && s'.orgs[freshId] == org
              && org.id == freshId && name == Some(org.name) && slug == Some(org.slug) && org.createdAt == now
              && created.members == {AdminMember(caller, freshId)}
              && s'.members == s.members + created.members
  {
    if !Truthy(name) || !Truthy(slug) then Failure(NameAndSlugRequired)
    else if SlugTaken(s, slug.value) then Failure(SlugExists)
    else
      var org := Organization(freshId, name.value, slug.value, now);
      var admin := AdminMember(caller, freshId);
      Success((s.(orgs := s.orgs[freshId := org], members := s.members + {admin}),
               OrgWithMembers(org, {admin})))
  }

  /** On a consistent store the creator is the new organization's one and only member, an ADMIN. */
  lemma CreatorIsOnlyMember(s: Store, caller: Caller, name: Option<string>, slug: Option<string>, freshId: Id, now: nat)
    requires Valid(s)
    requires freshId !in s.orgs
    requires CreateOrganization(s, caller, name, slug, freshId, now).Success?
    ensures
      var s' := CreateOrganization(s, caller, name, slug, freshId, now).value.0;
      && MembersOf(s', freshId) == {AdminMember(caller, freshId)}
      && forall m :: m in MembersOf(s', freshId) ==> m.userId == caller.userId && m.role == Admin
  {
    var s' := CreateOrganization(s, caller, name, slug, freshId, now).value.0;
    forall m | m in MembersOf(s', freshId)
      ensures m == AdminMember(caller, freshId)
    {
      if m in s.members {
        assert false;
      }
    }
  }

  /** Two organizations never share a slug, however many creations succeed. */
  lemma CreateKeepsSlugsUnique(s: Store, caller: Caller, name: Option<string>, slug: Option<string>, freshId: Id, now: nat)
    requires SlugsUnique(s)
    requires freshId !in s.orgs
    requires CreateOrganization(s, caller, name, slug, freshId, now).Success?
    ensures SlugsUnique(CreateOrganization(s, caller, name, slug, freshId, now).value.0)
  {
    var s' := CreateOrganization(s, caller, name, slug, freshId, now).value.0;
    forall a, b | a in s'.orgs && b in s'.orgs && s'.orgs[a].slug == s'.orgs[b].slug
      ensures a == b
    {
      if a == freshId && b != freshId {
        assert false;
      } else if b == freshId && a != freshId {
        assert false;
      }
    }
  }

  /** A refused creation leaves the store exactly as it was (the store is not part of the answer). */
  lemma RefusedCreationChangesNothing(s: Store, caller: Caller, name: Option<string>, slug: Option<string>, freshId: Id, now: nat)
    requires freshId !in s.orgs
    requires Truthy(name) && Truthy(slug) && SlugTaken(s, slug.value)
    ensures CreateOrganization(s, caller, name, slug, freshId, now) == Failure(SlugExists)
    ensures CreateOrganization(s, caller, name, slug, freshId, now).error.status == 409
  {
  }

  // ---------------------------------------------------------------------------
  // Reads
  // ---------------------------------------------------------------------------

  function ServiceCount(s: Store, orgId: Id): nat {
    |set k | k in s.services && s.services[k].organizationId == orgId|
  }

  function IncidentCount(s: Store, orgId: Id): nat {
    |set k | k in s.incidents && s.incidents[k].organizationId == orgId|
  }

  /** An organization as listed for one of its members. */
  datatype OrgMembership = OrgMembership(organization: Organization, role: Role, serviceCount: nat, incidentCount: nat)

  /** The listing entry of one membership. */
  function Entry(s: Store, m: Member): OrgMembership
    requires m.organizationId in s.orgs
  {
    var org := s.orgs[m.organizationId];
    OrgMembership(org, m.role, ServiceCount(s, org.id), IncidentCount(s, org.id))
  }

  /** GET /organizations: one entry per membership of the caller. */
  function ListOrganizations(s: Store, userId: Id): (r: set<OrgMembership>)
    ensures forall x :: x in r ==>
              && (exists m :: m in s.members && m.userId == userId && m.organizationId in s.orgs
                   && x.organization == s.orgs[m.organizationId] && x.role == m.role)
              && x.serviceCount == ServiceCount(s, x.organization.id)
              && x.incidentCount == IncidentCount(s, x.organization.id)
    ensures forall m :: m in s.members && m.userId == userId && m.organizationId in s.orgs ==>
              exists x :: x in r && x.organization == s.orgs[m.organizationId] && x.role == m.role
  {
    var r := set m | m in s.members && m.userId == userId && m.organizationId in s.orgs :: Entry(s, m);
    assert forall m :: m in s.members && m.userId == userId && m.organizationId in s.orgs ==> Entry(s, m) in r;
    r
  }

  /** On a consistent store the listing holds exactly the caller's organizations. */
  lemma ListedExactlyWhereMember(s: Store, userId: Id, orgId: Id)
    requires Valid(s)
    ensures (exists x :: x in ListOrganizations(s, userId) && x.organization.id == orgId) <==> IsMember(s, userId, orgId)
  {
    var r := ListOrganizations(s, userId);
    if IsMember(s, userId, orgId) {
      var m :| m in s.members && m.userId == userId && m.organizationId == orgId;
      var x :| x in r && x.organization == s.orgs[m.organizationId] && x.role == m.role;
      assert x.organization.id == orgId;
    }
    if exists x :: x in r && x.organization.id == orgId {
      var x :| x in r && x.organization.id == orgId;
      var m :| m in s.members && m.userId == userId && m.organizationId in s.orgs
               && x.organization == s.orgs[m.organizationId] && x.role == m.role;
      assert m.organizationId == orgId;
    }
  }

  datatype OrgDetails = OrgDetails(organization: Organization, members: set<Member>, serviceCount: nat, incidentCount: nat)

  /**
    GET /organizations/:id: 403 unless the caller has a membership for this
    id; a membership without an organization answers null (`None`).
   */
  function GetOrganization(s: Store, userId: Id, id: Id): (r: Result<Option<OrgDetails>, HttpError>)
    ensures r.Failure? <==> !IsMember(s, userId, id)
    ensures r.Failure? ==> r.error == AccessDenied
    ensures r.Success? ==> (r.value.Some? <==> id in s.orgs)
    ensures r.Success? && r.value.Some? ==>
              && r.value.value.organization == s.orgs[id]
              && (forall m :: m in r.value.value.members <==> m in s.members && m.organizationId == id)
              && r.value.value.serviceCount == ServiceCount(s, id)
              && r.value.value.incidentCount == IncidentCount(s, id)
  {
    if !IsMember(s, userId, id) then Failure(AccessDenied)
    else if id !in s.orgs then Success(None)
    else Success(Some(OrgDetails(s.orgs[id], MembersOf(s, id), ServiceCount(s, id), IncidentCount(s, id))))
  }

  /**
    On a consistent store the two reads agree: an organization can be fetched
    exactly when it is in the caller's listing, and the fetch reports the
    listing's organization and counts.
   */
  lemma GetAgreesWithListing(s: Store, userId: Id, id: Id)
    requires Valid(s)
    ensures GetOrganization(s, userId, id).Success? <==>
            exists x :: x in ListOrganizations(s, userId) && x.organization.id == id
    ensures forall x :: x in ListOrganizations(s, userId) && x.organization.id == id ==>
              GetOrganization(s, userId, id)
              == Success(Some(OrgDetails(x.organization, MembersOf(s, id), x.serviceCount, x.incidentCount)))
  {
    ListedExactlyWhereMember(s, userId, id);
    forall x | x in ListOrganizations(s, userId) && x.organization.id == id
      ensures GetOrganization(s, userId, id)
              == Success(Some(OrgDetails(x.organization, MembersOf(s, id), x.serviceCount, x.incidentCount)))
    {
      var m :| m in s.members && m.userId == userId && m.organizationId in s.orgs
               && x.organization == s.orgs[m.organizationId] && x.role == m.role;
      assert m.organizationId == id;
    }
  }
}
