/** The records the store keeps: patients, incidents (appointments and
    treatments) with their file attachments, and the login users seeded
    alongside them; the shallow-merge patches `update*` apply; the id
    generator; and the lookups several pages share. */
module Records {
  import opened Wrappers
  import opened Text
  import opened Seqs

  datatype Status = Scheduled | Completed | Cancelled

  /** A file attached to an incident; `url` is the embedded data URL. */
  datatype Attachment = Attachment(name: string, size: nat, mimeType: string, url: string)

  /** A patient. `createdAt` is the creation instant (milliseconds). */
  datatype Patient = Patient(
    id: string,
    name: string,
    dob: string,
    contact: string,
    email: string,
    healthInfo: string,
    createdAt: int)

  /** An incident. Times are instants in milliseconds. A field the caller
      left out is `None`: `addIncident` defaults only `files`, so a record
      may lack a `status`, and booked appointments lack cost, treatment and
      next date. */
  datatype Incident = Incident(
    id: string,
    patientId: string,
    title: string,
    description: string,
    comments: string,
    appointmentDate: int,
    cost: Option<nat>,
    treatment: Option<string>,
    status: Option<Status>,
    nextDate: Option<int>,
    files: seq<Attachment>)

  /** The object handed to `addIncident`: an incident without an id, whose
      `files` may be missing. */
  datatype IncidentDraft = IncidentDraft(
    patientId: string,
    title: string,
    description: string,
    comments: string,
    appointmentDate: int,
    cost: Option<nat>,
    treatment: Option<string>,
    status: Option<Status>,
    nextDate: Option<int>,
    files: Option<seq<Attachment>>)

  /** The object handed to `updatePatient`: any subset of the fields,
      `id` and `createdAt` included (the merge does not protect them). */
  datatype PatientPatch = PatientPatch(
    id: Option<string>,
    name: Option<string>,
    dob: Option<string>,
    contact: Option<string>,
    email: Option<string>,
    healthInfo: Option<string>,
    createdAt: Option<int>)

  /** The object handed to `updateIncident`; a field that is itself optional
      in the record is supplied as `Some(None)` to clear it. */
  datatype IncidentPatch = IncidentPatch(
    id: Option<string>,
    patientId: Option<string>,
    title: Option<string>,
    description: Option<string>,
    comments: Option<string>,
    appointmentDate: Option<int>,
    cost: Option<Option<nat>>,
    treatment: Option<Option<string>>,
    status: Option<Option<Status>>,
    nextDate: Option<Option<int>>,
    files: Option<seq<Attachment>>)

  datatype Role = Admin | PatientRole

  /** A login user; a patient-role user is linked to a patient record. */
  datatype User = User(id: string, role: Role, email: string, password: string,
                       patientId: Option<string>, name: string)

  // ---------------------------------------------------------------------
  // Shallow merge `{ ...record, ...patch }`

  /** Supplied fields win, the others keep the record's value. */
  function MergePatient(p: Patient, patch: PatientPatch): (r: Patient)
    ensures patch.id.Some? ==> r.id == patch.id.value
    ensures patch.id.None? ==> r.id == p.id
    ensures patch.name.Some? ==> r.name == patch.name.value
    ensures patch.name.None? ==> r.name == p.name
    ensures patch.dob.Some? ==> r.dob == patch.dob.value
    ensures patch.dob.None? ==> r.dob == p.dob
    ensures patch.contact.Some? ==> r.contact == patch.contact.value
    ensures patch.contact.None? ==> r.contact == p.contact
    ensures patch.email.Some? ==> r.email == patch.email.value
    ensures patch.email.None? ==> r.email == p.email
    ensures patch.healthInfo.Some? ==> r.healthInfo == patch.healthInfo.value
    ensures patch.healthInfo.None? ==> r.healthInfo == p.healthInfo
    ensures patch.createdAt.Some? ==> r.createdAt == patch.createdAt.value
    ensures patch.createdAt.None? ==> r.createdAt == p.createdAt
  {
    Patient(
      patch.id.GetOr(p.id),
      patch.name.GetOr(p.name),
      patch.dob.GetOr(p.dob),
      patch.contact.GetOr(p.contact),
      patch.email.GetOr(p.email),
      patch.healthInfo.GetOr(p.healthInfo),
      patch.createdAt.GetOr(p.createdAt))
  }

  const EmptyPatientPatch := PatientPatch(None, None, None, None, None, None, None)

  /** `{ ...a, ...b }` of two patches: `b`'s fields win. */
  function CombinePatientPatches(a: PatientPatch, b: PatientPatch): PatientPatch
  {
    PatientPatch(
      if b.id.Some? then b.id else a.id,
      if b.name.Some? then b.name else a.name,
      if b.dob.Some? then b.dob else a.dob,
      if b.contact.Some? then b.contact else a.contact,
      if b.email.Some? then b.email else a.email,
      if b.healthInfo.Some? then b.healthInfo else a.healthInfo,
      if b.createdAt.Some? then b.createdAt else a.createdAt)
  }

  /** The empty patch changes nothing; merging the same patch twice is merging
      it once; merging two patches in turn is merging their combination. */
  lemma MergePatientLaws(p: Patient, a: PatientPatch, b: PatientPatch)
    ensures MergePatient(p, EmptyPatientPatch) == p
    ensures MergePatient(MergePatient(p, a), a) == MergePatient(p, a)
    ensures MergePatient(MergePatient(p, a), b) == MergePatient(p, CombinePatientPatches(a, b))
  {
  }

  function MergeIncident(i: Incident, patch: IncidentPatch): (r: Incident)
    ensures patch.id.Some? ==> r.id == patch.id.value
    ensures patch.id.None? ==> r.id == i.id
    ensures patch.patientId.Some? ==> r.patientId == patch.patientId.value
    ensures patch.patientId.None? ==> r.patientId == i.patientId
    ensures patch.title.Some? ==> r.title == patch.title.value
    ensures patch.title.None? ==> r.title == i.title
    ensures patch.description.Some? ==> r.description == patch.description.value
    ensures patch.description.None? ==> r.description == i.description
    ensures patch.comments.Some? ==> r.comments == patch.comments.value
    ensures patch.comments.None? ==> r.comments == i.comments
    ensures patch.appointmentDate.Some? ==> r.appointmentDate == patch.appointmentDate.value
    ensures patch.appointmentDate.None? ==> r.appointmentDate == i.appointmentDate
    ensures patch.cost.Some? ==> r.cost == patch.cost.value
    ensures patch.cost.None? ==> r.cost == i.cost
    ensures patch.treatment.Some? ==> r.treatment == patch.treatment.value
    ensures patch.treatment.None? ==> r.treatment == i.treatment
    ensures patch.status.Some? ==> r.status == patch.status.value
    ensures patch.status.None? ==> r.status == i.status
    ensures patch.nextDate.Some? ==> r.nextDate == patch.nextDate.value
    ensures patch.nextDate.None? ==> r.nextDate == i.nextDate
    ensures patch.files.Some? ==> r.files == patch.files.value
    ensures patch.files.None? ==> r.files == i.files
  {
    Incident(
      patch.id.GetOr(i.id),
      patch.patientId.GetOr(i.patientId),
      patch.title.GetOr(i.title),
      patch.description.GetOr(i.description),
      patch.comments.GetOr(i.comments),
      patch.appointmentDate.GetOr(i.appointmentDate),
      patch.cost.GetOr(i.cost),
      patch.treatment.GetOr(i.treatment),
      patch.status.GetOr(i.status),
      patch.nextDate.GetOr(i.nextDate),
      patch.files.GetOr(i.files))
  }

  const EmptyIncidentPatch :=
    IncidentPatch(None, None, None, None, None, None, None, None, None, None, None)

  /** The empty patch changes nothing and merging is idempotent. */
  lemma MergeIncidentLaws(i: Incident, a: IncidentPatch)
    ensures MergeIncident(i, EmptyIncidentPatch) == i
    ensures MergeIncident(MergeIncident(i, a), a) == MergeIncident(i, a)
  {
  }

  // ---------------------------------------------------------------------
  // Ids: `'p' + Date.now()` and `'i' + Date.now()`

  function PatientId(stamp: nat): (id: string)
    ensures |id| >= 2 && id[0] == 'p'
  {
    "p" + Decimal(stamp)
  }

  function IncidentId(stamp: nat): (id: string)
    ensures |id| >= 2 && id[0] == 'i'
  {
    "i" + Decimal(stamp)
  }

  /** Ids made at different milliseconds differ, and a patient id is never
      an incident id. Ids made in the same millisecond coincide: the source
      does not guarantee uniqueness. */
  lemma IdsFromStamps(a: nat, b: nat)
    ensures PatientId(a) == PatientId(b) <==> a == b
    ensures IncidentId(a) == IncidentId(b) <==> a == b
    ensures PatientId(a) != IncidentId(b)
  {
    if PatientId(a) == PatientId(b) {
      assert Decimal(a) == PatientId(a)[1..];
      assert Decimal(b) == PatientId(b)[1..];
      DecimalInjective(a, b);
    }
    if IncidentId(a) == IncidentId(b) {
      assert Decimal(a) == IncidentId(a)[1..];
      assert Decimal(b) == IncidentId(b)[1..];
      DecimalInjective(a, b);
    }
  }

  ghost predicate UniquePatientIds(ps: seq<Patient>)
  {
    forall i, j :: 0 <= i < j < |ps| ==> ps[i].id != ps[j].id
  }

  ghost predicate UniqueIncidentIds(incidents: seq<Incident>)
  {
    forall i, j :: 0 <= i < j < |incidents| ==> incidents[i].id != incidents[j].id
  }

  // ---------------------------------------------------------------------
  // Lookups shared by the pages

  const UnknownPatient := "Unknown Patient"

  /** `patients.find(p => p.id === id)`: the first patient with that id. */
  function FindPatient(patients: seq<Patient>, id: string): (r: Option<Patient>)
    ensures r.None? <==> forall k :: 0 <= k < |patients| ==> patients[k].id != id
    ensures r.Some? ==> exists k :: 0 <= k < |patients| && patients[k] == r.value
                                    && forall j :: 0 <= j < k ==> patients[j].id != id
    ensures r.Some? ==> r.value.id == id
    decreases |patients|
  {
    if patients == [] then None
    else if patients[0].id == id then
      assert patients[0] == patients[0];
      Some(patients[0])
    else
      var rest := FindPatient(patients[1..], id);
      if rest.Some? then
        var k :| 0 <= k < |patients[1..]| && patients[1..][k] == rest.value
                 && forall j :: 0 <= j < k ==> patients[1..][j].id != id;
        assert patients[k + 1] == rest.value;
        assert forall j :: 0 <= j < k + 1 ==> patients[j].id != id by {
          forall j | 0 <= j < k + 1
            ensures patients[j].id != id
          {
            if j > 0 {
              assert patients[j] == patients[1..][j - 1];
            }
          }
        }
        rest
      else
        assert forall k :: 0 < k < |patients| ==> patients[k] == patients[1..][k - 1];
        rest
  }

  /** With unique ids, the patient found is the one holding that id. */
  lemma FindPatientUnique(patients: seq<Patient>, p: Patient)
    requires UniquePatientIds(patients) && p in patients
    ensures FindPatient(patients, p.id) == Some(p)
  {
    var r := FindPatient(patients, p.id);
    var k :| 0 <= k < |patients| && patients[k] == r.value
             && forall j :: 0 <= j < k ==> patients[j].id != p.id;
    var m :| 0 <= m < |patients| && patients[m] == p;
    assert !(m < k);
    assert !(k < m);
  }

  /** Index `k` holds the first patient with the id. */
  predicate FirstWithId(patients: seq<Patient>, id: string, k: int)
  {
    0 <= k < |patients| && patients[k].id == id && forall j :: 0 <= j < k ==> patients[j].id != id
  }

  /** The patient found is the first one holding the id, duplicates or not. */
  lemma FindPatientFirst(patients: seq<Patient>, id: string, k: int)
    requires FirstWithId(patients, id, k)
    ensures FindPatient(patients, id) == Some(patients[k])
  {
    var r := FindPatient(patients, id);
    var m :| 0 <= m < |patients| && patients[m] == r.value
             && forall j :: 0 <= j < m ==> patients[j].id != id;
    assert !(m < k);
    assert !(k < m);
  }

  /** `getPatientName`: the name of the first patient with the id, else the
      literal "Unknown Patient". */
  function PatientName(patients: seq<Patient>, id: string): (name: string)
    ensures (forall k :: 0 <= k < |patients| ==> patients[k].id != id) ==> name == UnknownPatient
    ensures forall k :: FirstWithId(patients, id, k) ==> name == patients[k].name
    ensures UniquePatientIds(patients) ==> forall p :: p in patients && p.id == id ==> name == p.name
  {
    match FindPatient(patients, id)
    case None => UnknownPatient
    case Some(p) =>
      assert UniquePatientIds(patients) ==> forall q :: q in patients && q.id == id ==> p == q by {
        if UniquePatientIds(patients) {
          forall q | q in patients && q.id == id
            ensures p == q
          {
            FindPatientUnique(patients, q);
          }
        }
      }
      assert forall k :: FirstWithId(patients, id, k) ==> p == patients[k] by {
        forall k | FirstWithId(patients, id, k)
          ensures p == patients[k]
        {
          FindPatientFirst(patients, id, k);
        }
      }
      p.name
  }
}
