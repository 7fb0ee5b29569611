/**
  The real-time events a handler broadcasts to its organization's room.
  Delivery itself (rooms, sockets, timestamps) is outside the model: an
  operation only reports which event it would emit.
 */
module Events {
  import opened Domain

  datatype EventKind =
    | ServiceCreated
    | ServiceUpdated
    | ServiceDeleted
    | IncidentCreated
    | IncidentUpdated
    | IncidentResolved

  /** The event name sent on the wire. */
  function WireName(k: EventKind): string {
    match k
    case ServiceCreated => "service:created"
    case ServiceUpdated => "service:updated"
    case ServiceDeleted => "service:deleted"
    case IncidentCreated => "incident:created"
    case IncidentUpdated => "incident:updated"
    case IncidentResolved => "incident:resolved"
  }

  /** Distinct kinds travel under distinct names. */
  lemma WireNamesDistinct(a: EventKind, b: EventKind)
    ensures WireName(a) == WireName(b) ==> a == b
  {
  }

  datatype Payload =
    | ServicePayload(service: Service)
    | StatusChangePayload(changed: Service, previousStatus: ServiceStatus, newStatus: ServiceStatus)
    | ServiceRemovedPayload(serviceId: Id, serviceName: string)
    | IncidentPayload(incident: Incident)
    | UpdatePayload(incidentId: Id, update: IncidentUpdate)

  /** An event for the room of organization `organizationId`. */
  datatype Event = Event(organizationId: Id, kind: EventKind, payload: Payload)

  /** The room name an organization's subscribers join. */
  function Room(organizationId: Id): string {
    "org:" + organizationId
  }

  /** Different organizations never share a room. */
  lemma RoomsSeparateOrganizations(a: Id, b: Id)
    ensures Room(a) == Room(b) ==> a == b
  {
    if Room(a) == Room(b) {
      assert a == Room(a)[4..];
    }
  }
}
