/**
  The dashboard's local copies of the service and incident lists, and how a
  mutation's response is spliced into them without a refetch. A call whose
  request fails rejects before the list is touched, so every operation
  takes the API's answer as a `Result` and leaves the list alone on a
  `Failure`.
 */
module ListHooks {
  import opened Wrappers
  import opened Domain

  /** The new list and what the mutation hands back to its caller. */
  datatype Outcome<T, R, E> = Outcome(list: seq<T>, returned: Result<R, E>)

  // ---------------------------------------------------------------------------
  // Lists keyed by id
  // ---------------------------------------------------------------------------

  predicate HasId<T>(list: seq<T>, idOf: T -> Id, id: Id) {
    exists i :: 0 <= i < |list| && idOf(list[i]) == id
  }

  predicate IdsDistinct<T>(list: seq<T>, idOf: T -> Id) {
    forall i, j :: 0 <= i < j < |list| ==> idOf(list[i]) != idOf(list[j])
  }

  /** `list.map(x => idOf(x) === id ? y : x)` */
  function ReplaceById<T>(list: seq<T>, idOf: T -> Id, id: Id, y: T): (r: seq<T>)
    ensures |r| == |list|
    ensures forall i :: 0 <= i < |list| && idOf(list[i]) != id ==> r[i] == list[i]
    ensures forall i :: 0 <= i < |list| && idOf(list[i]) == id ==> r[i] == y
  {
    seq(|list|, i requires 0 <= i < |list| => if idOf(list[i]) == id then y else list[i])
  }

  /** `list.filter(x => idOf(x) !== id)` */
  function RemoveById<T>(list: seq<T>, idOf: T -> Id, id: Id): (r: seq<T>)
    ensures |r| <= |list|
    ensures forall x :: x in r ==> x in list && idOf(x) != id
    ensures forall x :: x in list && idOf(x) != id ==> x in r
  {
    if list == [] then []
    else if idOf(list[0]) == id then RemoveById(list[1..], idOf, id)
    else [list[0]] + RemoveById(list[1..], idOf, id)
  }

  /** The survivors of the filter are kept as often as they were listed. */
  lemma {:induction false} RemoveKeepsMultiplicity<T>(list: seq<T>, idOf: T -> Id, id: Id)
    ensures forall x :: x in list ==>
              multiset(RemoveById(list, idOf, id))[x] == if idOf(x) == id then 0 else multiset(list)[x]
  {
    if list != [] {
      RemoveKeepsMultiplicity(list[1..], idOf, id);
      assert list == [list[0]] + list[1..];
      assert multiset(list) == multiset([list[0]]) + multiset(list[1..]);
      forall x | x in list
        ensures multiset(RemoveById(list, idOf, id))[x] == if idOf(x) == id then 0 else multiset(list)[x]
      {
        if x !in list[1..] {
          assert x !in RemoveById(list[1..], idOf, id);
        }
      }
    }
  }

  /** Filtering a concatenation filters each part: the survivors keep their order. */
  lemma {:induction false} RemoveByIdOverConcat<T>(a: seq<T>, b: seq<T>, idOf: T -> Id, id: Id)
    ensures RemoveById(a + b, idOf, id) == RemoveById(a, idOf, id) + RemoveById(b, idOf, id)
  {
    if a != [] {
      assert (a + b)[0] == a[0];
      assert (a + b)[1..] == a[1..] + b;
      RemoveByIdOverConcat(a[1..], b, idOf, id);
    } else {
      assert a + b == b;
    }
  }

  /** Removing an id that is not listed changes nothing. */
  lemma {:induction false} RemoveAbsentIsIdentity<T>(list: seq<T>, idOf: T -> Id, id: Id)
    requires !HasId(list, idOf, id)
    ensures RemoveById(list, idOf, id) == list
  {
    if list != [] {
      assert !HasId(list[1..], idOf, id) by {
        forall i | 0 <= i < |list[1..]|
          ensures idOf(list[1..][i]) != id
        {
          assert list[1..][i] == list[i + 1];
        }
      }
      RemoveAbsentIsIdentity(list[1..], idOf, id);
    }
  }

  /** Removing twice is removing once. */
  lemma RemoveIsIdempotent<T>(list: seq<T>, idOf: T -> Id, id: Id)
    ensures RemoveById(RemoveById(list, idOf, id), idOf, id) == RemoveById(list, idOf, id)
  {
    var r := RemoveById(list, idOf, id);
    assert !HasId(r, idOf, id) by {
      forall i | 0 <= i < |r|
        ensures idOf(r[i]) != id
      {
        assert r[i] in r;
      }
    }
    RemoveAbsentIsIdentity(r, idOf, id);
  }

  /** A replacement that keeps the id keeps the list's ids, in order. */
  lemma ReplaceKeepsIds<T>(list: seq<T>, idOf: T -> Id, id: Id, y: T)
    requires idOf(y) == id
    ensures forall i :: 0 <= i < |list| ==> idOf(ReplaceById(list, idOf, id, y)[i]) == idOf(list[i])
    ensures IdsDistinct(list, idOf) ==> IdsDistinct(ReplaceById(list, idOf, id, y), idOf)
  {
  }

  // ---------------------------------------------------------------------------
  // The mutations of the two hooks
  // ---------------------------------------------------------------------------

  function ServiceId(svc: Service): Id { svc.id }
  function IncidentId(inc: Incident): Id { inc.id }

  /** useServices.createService: the created service goes to the end. */
  function CreateServiceInList<E>(services: seq<Service>, response: Result<Service, E>): (o: Outcome<Service, Service, E>)
    ensures o.returned == response
    ensures response.Failure? ==> o.list == services
    ensures response.Success? ==> |o.list| == |services| + 1 && o.list[..|services|] == services
                                  && o.list[|services|] == response.value
  {
    match response
    case Failure(e) => Outcome(services, Failure(e))
    case Success(svc) => Outcome(services + [svc], Success(svc))
  }

  /** useServices.updateService: the answer replaces every entry with that id. */
  function UpdateServiceInList<E>(services: seq<Service>, id: Id, response: Result<Service, E>): (o: Outcome<Service, Service, E>)
    ensures o.returned == response
    ensures response.Failure? ==> o.list == services
    ensures response.Success? ==>
              && |o.list| == |services|
              && forall i :: 0 <= i < |services| ==>
                   o.list[i] == (if services[i].id == id then response.value else services[i])
  {
    match response
    case Failure(e) => Outcome(services, Failure(e))
    case Success(svc) => Outcome(ReplaceById(services, ServiceId, id, svc), Success(svc))
  }

  /**
    useServices.deleteService: every entry with that id goes, the others stay
    as often as they were listed and keep their order (the filter of
    `RemoveById`; `DeleteKeepsOthersInOrder` spells the order out).
   */
  function DeleteServiceFromList<E>(services: seq<Service>, id: Id, response: Result<(), E>): (o: Outcome<Service, (), E>)
    ensures o.returned == response
    ensures response.Failure? ==> o.list == services
    ensures response.Success? ==> forall svc :: svc in o.list <==> svc in services && svc.id != id
    ensures response.Success? ==>
              forall svc :: multiset(o.list)[svc] == if svc.id == id then 0 else multiset(services)[svc]
    ensures response.Success? ==> o.list == RemoveById(services, ServiceId, id)
  {
    match response
    case Failure(e) => Outcome(services, Failure(e))
    case Success(u) =>
      RemoveKeepsMultiplicity(services, ServiceId, id);
      Outcome(RemoveById(services, ServiceId, id), Success(u))
  }

  /** useIncidents.createIncident: the created incident goes to the front. */
  function CreateIncidentInList<E>(incidents: seq<Incident>, response: Result<Incident, E>): (o: Outcome<Incident, Incident, E>)
    ensures o.returned == response
    ensures response.Failure? ==> o.list == incidents
    ensures response.Success? ==> |o.list| == |incidents| + 1 && o.list[0] == response.value && o.list[1..] == incidents
  {
    match response
    case Failure(e) => Outcome(incidents, Failure(e))
    case Success(inc) => Outcome([inc] + incidents, Success(inc))
  }

  /** useIncidents.updateIncident: the answer replaces every entry with that id. */
  function UpdateIncidentInList<E>(incidents: seq<Incident>, id: Id, response: Result<Incident, E>): (o: Outcome<Incident, Incident, E>)
    ensures o.returned == response
    ensures response.Failure? ==> o.list == incidents
    ensures response.Success? ==>
              && |o.list| == |incidents|
              && forall i :: 0 <= i < |incidents| ==>
                   o.list[i] == (if incidents[i].id == id then response.value else incidents[i])
  {
    match response
    case Failure(e) => Outcome(incidents, Failure(e))
    case Success(inc) => Outcome(ReplaceById(incidents, IncidentId, id, inc), Success(inc))
  }

  /**
    useIncidents.addUpdate: the list is not spliced; a successful post asks
    for a refetch of the whole list, a failed one rejects before asking.
   */
  datatype AddUpdateOutcome<E> = AddUpdateOutcome(list: seq<Incident>, returned: Result<IncidentUpdate, E>, refetch: bool)

  function AddUpdate<E>(incidents: seq<Incident>, response: Result<IncidentUpdate, E>): (o: AddUpdateOutcome<E>)
    ensures o.list == incidents
    ensures o.returned == response
    ensures o.refetch <==> response.Success?
  {
    AddUpdateOutcome(incidents, response, response.Success?)
  }

  // ---------------------------------------------------------------------------
  // What the splices promise the dashboard
  // ---------------------------------------------------------------------------

  /** A created service whose id is new keeps the list free of duplicate ids. */
  lemma CreateServiceKeepsIdsDistinct<E>(services: seq<Service>, response: Result<Service, E>)
    requires IdsDistinct(services, ServiceId)
    requires response.Success? ==> !HasId(services, ServiceId, response.value.id)
    ensures IdsDistinct(CreateServiceInList(services, response).list, ServiceId)
  {
    var l := CreateServiceInList(services, response).list;
    if response.Success? {
      forall i, j | 0 <= i < j < |l|
        ensures ServiceId(l[i]) != ServiceId(l[j])
      {
        if j == |services| {
          assert l[i] == services[i];
        } else {
          assert l[i] == services[i] && l[j] == services[j];
        }
      }
    }
  }

  /** Likewise for a created incident put at the front. */
  lemma CreateIncidentKeepsIdsDistinct<E>(incidents: seq<Incident>, response: Result<Incident, E>)
    requires IdsDistinct(incidents, IncidentId)
    requires response.Success? ==> !HasId(incidents, IncidentId, response.value.id)
    ensures IdsDistinct(CreateIncidentInList(incidents, response).list, IncidentId)
  {
    var l := CreateIncidentInList(incidents, response).list;
    if response.Success? {
      forall i, j | 0 <= i < j < |l|
        ensures IncidentId(l[i]) != IncidentId(l[j])
      {
        if i == 0 {
          assert l[j] == incidents[j - 1];
        } else {
          assert l[i] == incidents[i - 1] && l[j] == incidents[j - 1];
        }
      }
    }
  }

  /**
    After a successful update answered with the same id, the entry with that
    id is the answer and the ids are the same as before.
   */
  lemma UpdatedServiceIsFound<E>(services: seq<Service>, id: Id, response: Result<Service, E>)
    requires response.Success? && response.value.id == id
    ensures var l := UpdateServiceInList(services, id, response).list;
            && (forall i :: 0 <= i < |l| ==> l[i].id == services[i].id)
            && (forall i :: 0 <= i < |l| && l[i].id == id ==> l[i] == response.value)
            && (HasId(services, ServiceId, id) ==> response.value in l)
  {
    var l := UpdateServiceInList(services, id, response).list;
    if HasId(services, ServiceId, id) {
      var i :| 0 <= i < |services| && ServiceId(services[i]) == id;
      assert l[i] == response.value;
    }
  }

  /**
    A successful delete keeps the survivors in order: cut the list anywhere,
    and the survivors of the first part come before those of the second.
   */
  lemma DeleteKeepsOthersInOrder<E>(services: seq<Service>, id: Id, response: Result<(), E>,
                                    front: seq<Service>, back: seq<Service>)
    requires response.Success? && services == front + back
    ensures DeleteServiceFromList(services, id, response).list
            == DeleteServiceFromList(front, id, response).list + DeleteServiceFromList(back, id, response).list
  {
    RemoveByIdOverConcat(front, back, ServiceId, id);
  }

  /** A successful delete leaves no entry with that id, and deleting again is harmless. */
  lemma DeletedServiceIsGone<E>(services: seq<Service>, id: Id, response: Result<(), E>)
    requires response.Success?
    ensures !HasId(DeleteServiceFromList(services, id, response).list, ServiceId, id)
    ensures DeleteServiceFromList(DeleteServiceFromList(services, id, response).list, id, response).list
            == DeleteServiceFromList(services, id, response).list
  {
    var l := DeleteServiceFromList(services, id, response).list;
    forall i | 0 <= i < |l|
      ensures ServiceId(l[i]) != id
    {
      assert l[i] in l;
    }
    RemoveIsIdempotent(services, ServiceId, id);
  }
}
