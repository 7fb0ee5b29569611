/**
  Read-side shapes shared by the query handlers: an incident together with
  (a selection of) its updates, and the orders the queries sort by.
 */
module Views {
  import opened Wrappers
  import opened Domain
  import opened Sorting

  datatype IncidentView = IncidentView(incident: Incident, updates: seq<IncidentUpdate>)

  /** All stored updates of one incident. */
  function UpdatesOf(s: Store, incidentId: Id): set<IncidentUpdate> {
    set k | k in s.updates && s.updates[k].incidentId == incidentId :: s.updates[k]
  }

  /** `orderBy: { createdAt: 'desc' }` */
  function UpdateNewestKey(u: IncidentUpdate): Key {
    Key(-(u.createdAt as int), 0)
  }

  /** `orderBy: { createdAt: 'asc' }` */
  function UpdateOldestKey(u: IncidentUpdate): Key {
    Key(u.createdAt, 0)
  }

  /** `orderBy: { createdAt: 'desc' }` on incidents. */
  function IncidentNewestKey(i: Incident): Key {
    Key(-(i.createdAt as int), 0)
  }

  /** A newest-first key really lists later rows first. */
  lemma NewestKeyMeansLaterFirst(a: Incident, b: Incident)
    ensures KeyLe(IncidentNewestKey(a), IncidentNewestKey(b)) <==> a.createdAt >= b.createdAt
  {
  }

  /** `vs` pairs each incident of `incs`, in order, with its updates newest first, at most `limit` of them. */
  predicate ViewsOf(s: Store, incs: seq<Incident>, limit: Option<nat>, vs: seq<IncidentView>) {
    && |vs| == |incs|
    && forall i :: 0 <= i < |vs| ==>
         vs[i].incident == incs[i] && Selection(UpdatesOf(s, incs[i].id), UpdateNewestKey, limit, vs[i].updates)
  }

  /** Attaches to every incident its updates newest first, at most `limit` of them. */
  method BuildViews(s: Store, incs: seq<Incident>, limit: Option<nat>)
    returns (vs: seq<IncidentView>)
    ensures ViewsOf(s, incs, limit, vs)
  {
    vs := [];
    for i := 0 to |incs|
      invariant |vs| == i
      invariant forall j :: 0 <= j < i ==>
        vs[j].incident == incs[j] && Selection(UpdatesOf(s, incs[j].id), UpdateNewestKey, limit, vs[j].updates)
    {
      var us := SortAndTake(UpdatesOf(s, incs[i].id), UpdateNewestKey, limit);
      vs := vs + [IncidentView(incs[i], us)];
    }
  }
}
