/** The patients page: the search over the patient list, each patient's
    appointment count, the add/edit form and its submission, and the
    confirmed delete that takes the patient's appointments with it. */
module PatientsPage {
  import opened Wrappers
  import opened Seqs
  import opened Text
  import opened Records
  import opened Queries
  import opened DataContext

  /** The search box: the lower-cased term against the lower-cased name and
      e-mail, and the term exactly as typed against the contact number. */
  predicate PatientMatches(p: Patient, term: string): (b: bool)
    ensures term == "" ==> b
    ensures term == p.contact ==> b
  {
    ContainsTrivial(Lower(p.name));
    ContainsTrivial(p.contact);
    || Contains(Lower(p.name), Lower(term))
    || Contains(Lower(p.email), Lower(term))
    || Contains(p.contact, term)
  }

  /** `filteredPatients`: the matching patients, in store order. */
  function FilteredPatients(patients: seq<Patient>, term: string): (r: seq<Patient>)
    ensures forall p :: p in r <==> p in patients && PatientMatches(p, term)
    ensures forall p :: multiset(r)[p] == if PatientMatches(p, term) then multiset(patients)[p] else 0
    ensures SubsequenceOf(r, patients)
    ensures (forall k :: 0 <= k < |patients| ==> PatientMatches(patients[k], term)) ==> r == patients
  {
    var matches := (p: Patient) => PatientMatches(p, term);
    FilterMembers(patients, matches);
    FilterIsSubsequence(patients, matches);
    FilterKeepsAll(patients, matches);
    Filter(patients, matches)
  }

  /** The empty search lists every patient. A term and its lower-cased form
      find the same patients by name and e-mail; only the contact number is
      compared as typed. */
  lemma SearchCase(patients: seq<Patient>, p: Patient, term: string)
    ensures FilteredPatients(patients, "") == patients
    ensures Contains(p.contact, term) == Contains(p.contact, Lower(term))
            ==> PatientMatches(p, term) == PatientMatches(p, Lower(term))
  {
    forall k | 0 <= k < |patients|
      ensures PatientMatches(patients[k], "")
    {
      ContainsTrivial(Lower(patients[k].name));
    }
    LowerIdempotent(term);
  }

  /** `getPatientAppointmentCount`: how many incidents name the patient,
      which is the number of appointments a patient sees on their profile. */
  function PatientAppointmentCount(incidents: seq<Incident>, id: string): (n: nat)
    ensures n == |IncidentsOf(incidents, Some(id))|
    ensures n <= |incidents|
    ensures n == 0 <==> forall k :: 0 <= k < |incidents| ==> incidents[k].patientId != id
  {
    AppointmentCountIsLength(incidents, id);
    AppointmentCount(incidents, id)
  }

  // ---------------------------------------------------------------------
  // The form

  /** The form's five fields; `id` and `createdAt` are not among them. */
  datatype PatientForm = PatientForm(name: string, dob: string, contact: string, email: string,
                                     healthInfo: string)

  /** The form as reset after a submit or cancel. */
  const BlankPatientForm := PatientForm("", "", "", "", "")

  /** `handleEdit`: the form filled from a patient. */
  function EditPatientForm(p: Patient): (form: PatientForm)
    ensures FormPatient(form, p.id, p.createdAt) == p
  {
    PatientForm(p.name, p.dob, p.contact, p.email, p.healthInfo)
  }

  /** `formData` handed to `updatePatient`: the five fields only. */
  function FormPatch(form: PatientForm): (patch: PatientPatch)
    ensures patch.id.None? && patch.createdAt.None?
  {
    PatientPatch(None, Some(form.name), Some(form.dob), Some(form.contact), Some(form.email),
                 Some(form.healthInfo), None)
  }

  /** `formData` handed to `addPatient`, which supplies `id` and `createdAt`
      itself; the placeholders here are overwritten. */
  function FormInput(form: PatientForm): Patient
  {
    Patient("", form.name, form.dob, form.contact, form.email, form.healthInfo, 0)
  }

  /** The patient the form describes, keeping a given id and creation time. */
  function FormPatient(form: PatientForm, id: string, createdAt: int): Patient
  {
    Patient(id, form.name, form.dob, form.contact, form.email, form.healthInfo, createdAt)
  }

  /** `handleSubmit`: with an edit target, every patient with the target's id
      takes the form's five fields and keeps its own id and creation time;
      without one, a new patient is appended under a fresh `'p'` id created
      at `now`. Incidents are never touched. */
  function SubmitPatient(s: Store, editing: Option<Patient>, form: PatientForm, stamp: nat, now: int): (r: Store)
    ensures r.incidents == s.incidents
    ensures editing.Some? ==> |r.patients| == |s.patients|
    ensures editing.Some? ==> forall k :: 0 <= k < |s.patients| ==>
              r.patients[k] == if s.patients[k].id == editing.value.id
                               then FormPatient(form, s.patients[k].id, s.patients[k].createdAt)
                               else s.patients[k]
    ensures editing.None? ==> r.patients == s.patients + [FormPatient(form, PatientId(stamp), now)]
    ensures Synced(s) ==> Synced(r)
  {
    match editing
    case Some(target) => UpdatePatient(s, target.id, FormPatch(form))
    case None => AddPatient(s, FormInput(form), stamp, now).store
  }

  /** Editing keeps every id, so distinct ids stay distinct; adding under an
      id no patient has keeps them distinct too. */
  lemma {:induction false} SubmitKeepsIdsUnique(s: Store, editing: Option<Patient>, form: PatientForm,
                                                stamp: nat, now: int)
    requires UniquePatientIds(s.patients)
    requires editing.None? ==> forall k :: 0 <= k < |s.patients| ==> s.patients[k].id != PatientId(stamp)
    ensures UniquePatientIds(SubmitPatient(s, editing, form, stamp, now).patients)
  {
    var r := SubmitPatient(s, editing, form, stamp, now);
    if editing.Some? {
      assert forall k :: 0 <= k < |s.patients| ==> r.patients[k].id == s.patients[k].id;
    } else {
      var added := FormPatient(form, PatientId(stamp), now);
      assert r.patients == s.patients + [added];
      forall i, j | 0 <= i < j < |r.patients|
        ensures r.patients[i].id != r.patients[j].id
      {
        if j == |s.patients| {
          assert r.patients[j] == added;
          assert r.patients[i] == s.patients[i];
        }
      }
    }
  }

  /** Opening a patient for editing and saving the form unchanged leaves the
      store's patient list as it was (ids being unique). */
  lemma ResubmitPatientUnchanged(s: Store, p: Patient, stamp: nat, now: int)
    requires UniquePatientIds(s.patients) && p in s.patients
    ensures SubmitPatient(s, Some(p), EditPatientForm(p), stamp, now).patients == s.patients
  {
    var r := SubmitPatient(s, Some(p), EditPatientForm(p), stamp, now);
    var j :| 0 <= j < |s.patients| && s.patients[j] == p;
    forall k | 0 <= k < |s.patients|
      ensures r.patients[k] == s.patients[k]
    {
      assert s.patients[k].id == p.id ==> k == j;
    }
  }

  // ---------------------------------------------------------------------
  // Delete

  /** `handleDelete`: when the user confirms, the patient and all their
      appointments go; otherwise nothing changes. */
  function HandleDelete(s: Store, id: string, confirmed: bool): (r: Store)
    ensures !confirmed ==> r == s
    ensures confirmed ==> forall p :: p in r.patients <==> p in s.patients && p.id != id
    ensures confirmed ==> forall i :: i in r.incidents <==> i in s.incidents && i.patientId != id
    ensures confirmed ==> forall p: Patient :: multiset(r.patients)[p] == if p.id == id then 0 else multiset(s.patients)[p]
    ensures confirmed ==> forall i: Incident :: multiset(r.incidents)[i] == if i.patientId == id then 0 else multiset(s.incidents)[i]
    ensures confirmed ==> PatientAppointmentCount(r.incidents, id) == 0
    ensures SubsequenceOf(r.patients, s.patients) && SubsequenceOf(r.incidents, s.incidents)
    ensures Synced(s) ==> Synced(r)
  {
    SubsequenceOfSelf(s.patients);
    SubsequenceOfSelf(s.incidents);
    if confirmed then DeletePatient(s, id) else s
  }
}
