/**
  The dashboard's presentation maps: a status or impact, as the wire string
  the backend sends, to a colour class or a display text. Every map falls
  back on a fixed value (or, for the service text, the raw string) when the
  string is not one of its keys.
 */
module StatusLabels {
  import opened Wrappers
  import opened Domain
  import PublicStatus

  /** The colour class of a service status; unknown strings look operational. */
  function ServiceStatusColor(status: string): (colour: string)
    ensures colour in {"operational", "degraded", "outage", "maintenance"}
    ensures colour == "outage" <==> status == "PARTIAL_OUTAGE" || status == "MAJOR_OUTAGE"
    ensures colour == "degraded" <==> status == "DEGRADED_PERFORMANCE"
    ensures colour == "maintenance" <==> status == "UNDER_MAINTENANCE"
    ensures ParseServiceStatus(status).None? ==> colour == "operational"
  {
    match ParseServiceStatus(status)
    case Some(Operational) => "operational"
    case Some(DegradedPerformance) => "degraded"
    case Some(PartialOutage) => "outage"
    case Some(MajorOutage) => "outage"
    case Some(UnderMaintenance) => "maintenance"
    case None => "operational"
  }

  /** The display text of a service status; an unknown string is shown as it is. */
  function ServiceStatusText(status: string): (text: string)
    ensures ParseServiceStatus(status).None? ==> text == status
    ensures ParseServiceStatus(status).Some? ==> text != status
  {
    match ParseServiceStatus(status)
    case Some(Operational) => "Operational"
    case Some(DegradedPerformance) => "Degraded Performance"
    case Some(PartialOutage) => "Partial Outage"
    case Some(MajorOutage) => "Major Outage"
    case Some(UnderMaintenance) => "Under Maintenance"
    case None => status
  }

  /** The colour class of an incident status; unknown strings look like INVESTIGATING. */
  function IncidentStatusColor(status: string): (colour: string)
    ensures ParseIncidentStatus(status).None? ==> colour == "investigating"
  {
    match ParseIncidentStatus(status)
    case Some(Investigating) => "investigating"
    case Some(Identified) => "identified"
    case Some(Monitoring) => "monitoring"
    case Some(Resolved) => "resolved"
    case None => "investigating"
  }

  /** The colour class of an impact; unknown strings look MINOR. */
  function ImpactColor(impact: string): (colour: string)
    ensures ParseImpact(impact).None? ==> colour == "minor"
  {
    match ParseImpact(impact)
    case Some(Minor) => "minor"
    case Some(Major) => "major"
    case Some(Critical) => "critical"
    case None => "minor"
  }

  /** Every service status has its own display text. */
  lemma ServiceStatusTextsDistinct(a: ServiceStatus, b: ServiceStatus)
    ensures ServiceStatusText(ServiceStatusName(a)) == ServiceStatusText(ServiceStatusName(b)) <==> a == b
  {
    ServiceStatusRoundTrip(a);
    ServiceStatusRoundTrip(b);
  }

  /** The two outage statuses share a colour but not a text. */
  lemma OutagesShareColourNotText()
    ensures ServiceStatusColor("PARTIAL_OUTAGE") == ServiceStatusColor("MAJOR_OUTAGE")
    ensures ServiceStatusText("PARTIAL_OUTAGE") != ServiceStatusText("MAJOR_OUTAGE")
  {
  }

  /** Incident statuses are told apart by colour: the colour map is injective on them. */
  lemma IncidentStatusColoursDistinct(a: IncidentStatus, b: IncidentStatus)
    ensures IncidentStatusColor(IncidentStatusName(a)) == IncidentStatusColor(IncidentStatusName(b)) <==> a == b
  {
    IncidentStatusRoundTrip(a);
    IncidentStatusRoundTrip(b);
  }

  /** So are impacts. */
  lemma ImpactColoursDistinct(a: Impact, b: Impact)
    ensures ImpactColor(ImpactName(a)) == ImpactColor(ImpactName(b)) <==> a == b
  {
    ImpactRoundTrip(a);
    ImpactRoundTrip(b);
  }

  /**
    The dashboard's text for a service status agrees with the status page's
    overall label whenever the page's label is decided by that status alone.
   */
  lemma TextsAgreeWithOverallLabels(svc: Service)
    ensures svc.status == MajorOutage ==>
              ServiceStatusText(ServiceStatusName(svc.status)) == PublicStatus.OverallStatus([svc])
    ensures svc.status == DegradedPerformance ==>
              ServiceStatusText(ServiceStatusName(svc.status)) == PublicStatus.OverallStatus([svc])
    ensures svc.status == UnderMaintenance ==>
              ServiceStatusText(ServiceStatusName(svc.status)) == PublicStatus.OverallStatus([svc])
  {
    ServiceStatusRoundTrip(svc.status);
    assert svc in [svc];
  }
}
