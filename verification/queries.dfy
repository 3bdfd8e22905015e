/** Queries over incidents that several pages run: scoping to one patient,
    per-patient counts, and the split of a patient's appointments into
    upcoming (ascending by date) and past (descending by date). */
module Queries {
  import opened Wrappers
  import opened Seqs
  import opened Records

  /** The logged-in user's link to a patient record matches this incident
      (`i.patientId === user.patientId`; an unlinked user matches nothing). */
  predicate BelongsTo(i: Incident, linked: Option<string>)
  {
    linked == Some(i.patientId)
  }

  /** `incidents.filter(i => i.patientId === user.patientId)`: exactly the
      linked patient's incidents, in store order. */
  function IncidentsOf(incidents: seq<Incident>, linked: Option<string>): (r: seq<Incident>)
    ensures forall i :: multiset(r)[i] == if BelongsTo(i, linked) then multiset(incidents)[i] else 0
    ensures forall i :: i in r <==> i in incidents && BelongsTo(i, linked)
    ensures forall k :: 0 <= k < |r| ==> BelongsTo(r[k], linked)
    ensures SubsequenceOf(r, incidents)
    ensures linked.None? ==> r == []
  {
    var mine := (i: Incident) => BelongsTo(i, linked);
    FilterMembers(incidents, mine);
    FilterIsSubsequence(incidents, mine);
    Filter(incidents, mine)
  }

  /** `incidents.filter(i => i.patientId === id).length`. */
  function AppointmentCount(incidents: seq<Incident>, id: string): (n: nat)
    ensures n <= |incidents|
    ensures n == 0 <==> forall k :: 0 <= k < |incidents| ==> incidents[k].patientId != id
    ensures n == |incidents| <==> forall k :: 0 <= k < |incidents| ==> incidents[k].patientId == id
  {
    var mine := (i: Incident) => BelongsTo(i, Some(id));
    assert forall k :: 0 <= k < |incidents| ==> (mine(incidents[k]) <==> incidents[k].patientId == id);
    Count(incidents, mine)
  }

  /** The count is the length of the patient's list of incidents. */
  lemma AppointmentCountIsLength(incidents: seq<Incident>, id: string)
    ensures AppointmentCount(incidents, id) == |IncidentsOf(incidents, Some(id))|
  {
    CountIsFilterLength(incidents, (i: Incident) => BelongsTo(i, Some(id)));
  }

  /** Adding an incident for a patient raises that patient's count by one and
      leaves every other patient's count alone. */
  lemma AppointmentCountAppend(incidents: seq<Incident>, i: Incident, id: string)
    ensures AppointmentCount(incidents + [i], id)
         == AppointmentCount(incidents, id) + (if i.patientId == id then 1 else 0)
  {
    var mine := (x: Incident) => BelongsTo(x, Some(id));
    AppointmentCountIsLength(incidents, id);
    AppointmentCountIsLength(incidents + [i], id);
    FilterAppend(incidents, [i], mine);
    assert Filter([i], mine) == if i.patientId == id then [i] else [];
  }

  /** `new Date(i.appointmentDate) >= new Date()`: the boundary counts as upcoming. */
  predicate IsUpcoming(i: Incident, now: int)
  {
    i.appointmentDate >= now
  }

  function DateKey(i: Incident): int { i.appointmentDate }

  /** Sorting ascending by this key sorts by date, latest first. */
  function LatestFirstKey(i: Incident): int { -i.appointmentDate }

  predicate HasStatus(i: Incident, s: Status)
  {
    i.status == Some(s)
  }

  /** `i.status === 'Completed'`. */
  predicate IsCompleted(i: Incident) { HasStatus(i, Completed) }

  /** `i.status === 'Scheduled'`. */
  predicate IsScheduled(i: Incident) { HasStatus(i, Scheduled) }

  /** The upcoming incidents (date at or after `now`), earliest first. */
  function UpcomingSorted(incidents: seq<Incident>, now: int): (r: seq<Incident>)
    ensures forall i :: multiset(r)[i] == if IsUpcoming(i, now) then multiset(incidents)[i] else 0
    ensures |r| <= |incidents|
    ensures forall k :: 0 <= k < |r| ==> r[k] in incidents && r[k].appointmentDate >= now
    ensures forall j, k :: 0 <= j < k < |r| ==> r[j].appointmentDate <= r[k].appointmentDate
  {
    var up := (i: Incident) => IsUpcoming(i, now);
    var f := Filter(incidents, up);
    FilterMembers(incidents, up);
    SortByKeeps(f, DateKey, up);
    SortBy(f, DateKey)
  }

  /** The past incidents (date strictly before `now`), latest first. */
  function PastSorted(incidents: seq<Incident>, now: int): (r: seq<Incident>)
    ensures forall i :: multiset(r)[i] == if IsUpcoming(i, now) then 0 else multiset(incidents)[i]
    ensures |r| <= |incidents|
    ensures forall k :: 0 <= k < |r| ==> r[k] in incidents && r[k].appointmentDate < now
    ensures forall j, k :: 0 <= j < k < |r| ==> r[j].appointmentDate >= r[k].appointmentDate
  {
    var past := (i: Incident) => !IsUpcoming(i, now);
    var f := Filter(incidents, past);
    FilterMembers(incidents, past);
    SortByKeeps(f, LatestFirstKey, past);
    var r := SortBy(f, LatestFirstKey);
    assert SortedBy(r, LatestFirstKey);
    r
  }

  /** The sort is stable: the upcoming incidents sharing one date are listed
      in store order, every one of them; none is listed for a date before `now`. */
  lemma UpcomingSortedStable(incidents: seq<Incident>, now: int, v: int)
    ensures KeyClass(UpcomingSorted(incidents, now), DateKey, v)
         == if v >= now then KeyClass(incidents, DateKey, v) else []
  {
    var up := (i: Incident) => IsUpcoming(i, now);
    SortByStable(Filter(incidents, up), DateKey, v);
    if v >= now {
      KeyClassFilterKeeps(incidents, up, DateKey, v);
    } else {
      KeyClassFilterDrops(incidents, up, DateKey, v);
    }
  }

  /** The past incidents sharing one date are listed in store order, every
      one of them; none is listed for a date at or after `now`. A date `d`
      is the class `-d` of the latest-first key. */
  lemma PastSortedStable(incidents: seq<Incident>, now: int, v: int)
    ensures KeyClass(PastSorted(incidents, now), LatestFirstKey, v)
         == if -v < now then KeyClass(incidents, LatestFirstKey, v) else []
  {
    var past := (i: Incident) => !IsUpcoming(i, now);
    SortByStable(Filter(incidents, past), LatestFirstKey, v);
    if -v < now {
      KeyClassFilterKeeps(incidents, past, LatestFirstKey, v);
    } else {
      KeyClassFilterDrops(incidents, past, LatestFirstKey, v);
    }
  }

  /** A listed upcoming incident is exactly an upcoming incident of the input. */
  lemma UpcomingSortedMembers(incidents: seq<Incident>, now: int, i: Incident)
    ensures i in UpcomingSorted(incidents, now) <==> i in incidents && IsUpcoming(i, now)
  {
    assert i in UpcomingSorted(incidents, now) <==> i in multiset(UpcomingSorted(incidents, now));
    assert i in incidents <==> i in multiset(incidents);
  }

  /** Upcoming and past split the incidents: together they hold each
      incident exactly as often as the input does, and none is in both. */
  lemma UpcomingPastPartition(incidents: seq<Incident>, now: int)
    ensures multiset(UpcomingSorted(incidents, now)) + multiset(PastSorted(incidents, now)) == multiset(incidents)
    ensures |UpcomingSorted(incidents, now)| + |PastSorted(incidents, now)| == |incidents|
    ensures forall i :: !(i in UpcomingSorted(incidents, now) && i in PastSorted(incidents, now))
  {
    var u, p := UpcomingSorted(incidents, now), PastSorted(incidents, now);
    assert multiset(u) + multiset(p) == multiset(incidents) by {
      forall i
        ensures (multiset(u) + multiset(p))[i] == multiset(incidents)[i]
      {
      }
    }
    assert |multiset(u) + multiset(p)| == |multiset(incidents)|;
  }
}
