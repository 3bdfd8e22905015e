/** The patient's own profile page: the linked patient record (or the
    not-found screen), their appointments split into upcoming (earliest
    first) and past (latest first), the summary counts, and booking a new
    appointment. */
module PatientView {
  import opened Wrappers
  import opened Seqs
  import opened Records
  import opened Queries
  import opened DataContext
  import Dashboard

  /** What the page renders: the not-found screen, or the profile. */
  datatype ProfilePage =
    | NotFound
    | Profile(patient: Patient, appointments: seq<Incident>, upcoming: seq<Incident>,
              past: seq<Incident>, completed: nat)

  /** The profile of patient `p`: their appointments in store order, the
      upcoming ones earliest first, the past ones latest first. */
  function ProfileOf(p: Patient, incidents: seq<Incident>, now: int): (v: ProfilePage)
    ensures v.Profile? && v.patient == p
    ensures forall i :: i in v.appointments <==> i in incidents && i.patientId == p.id
    ensures forall i :: multiset(v.appointments)[i] == if i.patientId == p.id then multiset(incidents)[i] else 0
    ensures SubsequenceOf(v.appointments, incidents)
    ensures v.completed <= |v.appointments| && |v.upcoming| <= |v.appointments|
    ensures |v.upcoming| + |v.past| == |v.appointments|
    ensures multiset(v.upcoming) + multiset(v.past) == multiset(v.appointments)
    ensures forall i :: multiset(v.upcoming)[i] == if i.appointmentDate >= now then multiset(v.appointments)[i] else 0
    ensures v.completed == |Filter(v.appointments, IsCompleted)|
    ensures forall k :: 0 <= k < |v.upcoming| ==> v.upcoming[k].appointmentDate >= now
    ensures forall k :: 0 <= k < |v.past| ==> v.past[k].appointmentDate < now
    ensures forall j, k :: 0 <= j < k < |v.upcoming| ==> v.upcoming[j].appointmentDate <= v.upcoming[k].appointmentDate
    ensures forall j, k :: 0 <= j < k < |v.past| ==> v.past[j].appointmentDate >= v.past[k].appointmentDate
  {
    var mine := IncidentsOf(incidents, Some(p.id));
    var upcoming, past := UpcomingSorted(mine, now), PastSorted(mine, now);
    assert |upcoming| + |past| == |mine| && multiset(upcoming) + multiset(past) == multiset(mine) by {
      UpcomingPastPartition(mine, now);
    }
    CountIsFilterLength(mine, IsCompleted);
    Profile(p, mine, upcoming, past, Count(mine, IsCompleted))
  }

  /** The page for a user whose link to a patient record is `linked`: the
      not-found screen when the link resolves to no patient. */
  function ViewProfile(patients: seq<Patient>, incidents: seq<Incident>, linked: Option<string>,
                       now: int): (v: ProfilePage)
    ensures v.NotFound? <==> linked.None? || forall k :: 0 <= k < |patients| ==> patients[k].id != linked.value
    ensures v.Profile? ==> v.patient in patients && linked == Some(v.patient.id)
    ensures v.Profile? && UniquePatientIds(patients) ==> forall p :: p in patients && Some(p.id) == linked ==> v.patient == p
    ensures v.Profile? ==> v == ProfileOf(v.patient, incidents, now)
  {
    match linked
    case None => NotFound
    case Some(id) =>
      match FindPatient(patients, id)
      case None => NotFound
      case Some(p) =>
        assert UniquePatientIds(patients) ==> forall q :: q in patients && q.id == id ==> p == q by {
          if UniquePatientIds(patients) {
            forall q | q in patients && q.id == id
              ensures p == q
            {
              FindPatientUnique(patients, q);
            }
          }
        }
        ProfileOf(p, incidents, now)
  }

  /** Every appointment of the patient is listed exactly once between the
      upcoming and the past lists, and none is in both; an appointment at
      exactly `now` is upcoming. */
  lemma {:induction false} ProfileSplit(patients: seq<Patient>, incidents: seq<Incident>, linked: Option<string>,
                                        now: int, i: Incident)
    requires ViewProfile(patients, incidents, linked, now).Profile?
    ensures var v := ViewProfile(patients, incidents, linked, now);
            multiset(v.upcoming) + multiset(v.past) == multiset(v.appointments)
            && !(i in v.upcoming && i in v.past)
            && (i in v.appointments && i.appointmentDate == now ==> i in v.upcoming)
  {
    var v := ViewProfile(patients, incidents, linked, now);
    UpcomingPastPartition(v.appointments, now);
    if i in v.appointments && i.appointmentDate == now {
      assert i in multiset(v.appointments);
      assert i in multiset(v.upcoming);
    }
  }

  /** The patient's dashboard and their profile page agree: the same name,
      the same number of appointments and of completed ones, and the same
      upcoming list. */
  lemma HomeAgreesWithProfile(patients: seq<Patient>, incidents: seq<Incident>, id: string, now: int)
    requires FindPatient(patients, id).Some?
    ensures var h := Dashboard.PatientHomeView(patients, incidents, Some(id), now);
            var v := ViewProfile(patients, incidents, Some(id), now);
            v.Profile? && h.name == Some(v.patient.name) && h.total == |v.appointments|
            && h.completed == v.completed && h.upcoming == v.upcoming
  {
    var v := ViewProfile(patients, incidents, Some(id), now);
    var mine := IncidentsOf(incidents, Some(id));
    assert v.patient == FindPatient(patients, id).value;
    assert v.appointments == mine && v.upcoming == UpcomingSorted(mine, now);
    assert v.completed == Count(mine, IsCompleted);
    CountIsFilterLength(mine, IsCompleted);
  }

  // ---------------------------------------------------------------------
  // Booking

  /** The booking form's fields. */
  datatype BookingForm = BookingForm(title: string, description: string, appointmentDate: int, comments: string)

  /** `newAppointment`: the patient's own id, the form's fields, status
      "Scheduled" and no files; no cost, treatment or next date. */
  function BookingDraft(patientId: string, form: BookingForm): (d: IncidentDraft)
    ensures d.patientId == patientId && d.status == Some(Scheduled) && d.files == Some([])
    ensures d.title == form.title && d.description == form.description
    ensures d.appointmentDate == form.appointmentDate && d.comments == form.comments
    ensures d.cost.None? && d.treatment.None? && d.nextDate.None?
  {
    IncidentDraft(patientId, form.title, form.description, form.comments, form.appointmentDate,
                  None, None, Some(Scheduled), None, Some([]))
  }

  /** The incident a booking stores under the id `IncidentId(stamp)`. */
  function Booked(patientId: string, form: BookingForm, stamp: nat): Incident
  {
    Incident(IncidentId(stamp), patientId, form.title, form.description, form.comments,
             form.appointmentDate, None, None, Some(Scheduled), None, [])
  }

  /** `handleSubmit`: `addIncident(newAppointment)`. */
  function Book(s: Store, patientId: string, form: BookingForm, stamp: nat): (r: Store)
    ensures r.incidents == s.incidents + [Booked(patientId, form, stamp)]
    ensures r.patients == s.patients
    ensures Synced(s) ==> Synced(r)
  {
    AddIncident(s, BookingDraft(patientId, form), stamp).store
  }

  /** After booking, the patient's profile lists the new appointment, their
      appointment count has grown by one, and it is upcoming exactly when
      its date is not before `now`. */
  lemma {:induction false} BookingShowsInProfile(s: Store, id: string, form: BookingForm, stamp: nat, now: int)
    requires FindPatient(s.patients, id).Some?
    ensures var v := ViewProfile(Book(s, id, form, stamp).patients, Book(s, id, form, stamp).incidents, Some(id), now);
            v.Profile?
            && Booked(id, form, stamp) in v.appointments
            && (Booked(id, form, stamp) in v.upcoming <==> form.appointmentDate >= now)
    ensures AppointmentCount(Book(s, id, form, stamp).incidents, id) == AppointmentCount(s.incidents, id) + 1
  {
    var r := Book(s, id, form, stamp);
    var b := Booked(id, form, stamp);
    var v := ViewProfile(r.patients, r.incidents, Some(id), now);
    assert b in r.incidents;
    assert b in v.appointments;
    assert v.upcoming == UpcomingSorted(v.appointments, now);
    UpcomingSortedMembers(v.appointments, now, b);
    AppointmentCountAppend(s.incidents, b, id);
  }
}
