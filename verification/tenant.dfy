/**
  The organization-access middleware in front of every organization-scoped
  route. The deployed variant only resolves the organization id; the
  membership-checking variant kept in the source as an alternative is the
  second strategy.
 */
module Tenant {
  import opened Wrappers
  import opened Domain
  import opened ErrorHandler

  datatype AccessStrategy =
    | AllowAll           // the deployed behaviour: any caller proceeds
    | RequireMembership  // the alternative: authenticated members only

  /** Route parameter `orgId`, query parameter `orgId`, and the authenticated user, if any. */
  datatype TenantRequest = TenantRequest(paramOrgId: Option<string>, queryOrgId: Option<string>, userId: Option<string>)

  const OrgIdRequired := Reject(400, "Organization ID is required")
  const AuthenticationRequired := Reject(401, "Authentication required")
  /** The membership variant's 403 names the reason in its message. */
  const NotAMember := RejectWithMessage(403, "Access denied", "You are not a member of this organization")

  /** `params.orgId || query.orgId`: the first truthy one. */
  function RequestedOrgId(req: TenantRequest): Option<Id> {
    if Truthy(req.paramOrgId) then req.paramOrgId else req.queryOrgId
  }

  /** The organization id the request proceeds with, or the response that stops it. */
  function RequireOrganizationAccess(s: Store, req: TenantRequest, strategy: AccessStrategy): (r: Result<Id, HttpError>)
    ensures !Truthy(req.paramOrgId) && !Truthy(req.queryOrgId) <==> r == Failure(OrgIdRequired)
    ensures r.Success? ==> r.value != ""
    ensures r.Success? && Truthy(req.paramOrgId) ==> r.value == req.paramOrgId.value
    ensures r.Success? && !Truthy(req.paramOrgId) ==> r.value == req.queryOrgId.value
    ensures strategy == AllowAll ==> (r.Success? <==> Truthy(req.paramOrgId) || Truthy(req.queryOrgId))
    ensures strategy == RequireMembership && r.Success? ==> req.userId.Some? && IsMember(s, req.userId.value, r.value)
    ensures strategy == RequireMembership && Truthy(RequestedOrgId(req)) && !Truthy(req.userId) ==>
              r == Failure(AuthenticationRequired)
    ensures (strategy == RequireMembership && Truthy(RequestedOrgId(req)) && Truthy(req.userId)
             && !IsMember(s, req.userId.value, RequestedOrgId(req).value)) ==> r == Failure(NotAMember)
  {
    var orgId := RequestedOrgId(req);
    if !Truthy(orgId) then Failure(OrgIdRequired)
    else match strategy
      case AllowAll => Success(orgId.value)
      case RequireMembership =>
        if !Truthy(req.userId) then Failure(AuthenticationRequired)
        else if !IsMember(s, req.userId.value, orgId.value) then Failure(NotAMember)
        else Success(orgId.value)
  }

  /** The deployed middleware admits a caller with no membership at all. */
  lemma DeployedMiddlewareIgnoresMembership(s: Store, req: TenantRequest)
    requires Truthy(req.paramOrgId)
    requires req.userId.None? || !IsMember(s, req.userId.value, req.paramOrgId.value)
    ensures RequireOrganizationAccess(s, req, AllowAll) == Success(req.paramOrgId.value)
  {
  }
}
