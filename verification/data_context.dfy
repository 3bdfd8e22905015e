/** The record store: two ordered collections (patients, incidents) held in
    memory and mirrored, key by key, into the browser's key-value storage.
    Storage is an abstract map from key to a typed list of records (the JSON
    text is not modelled). Every operation is a pure transformer of the
    store; an operation that writes a collection writes storage and memory
    together. */
module DataContext {
  import opened Wrappers
  import opened Seqs
  import opened Records
  import opened Dates

  const UsersKey := "users"
  const PatientsKey := "patients"
  const IncidentsKey := "incidents"

  /** What a storage key can hold: the JSON array written under it. */
  datatype Doc =
    | UserList(users: seq<User>)
    | PatientList(patients: seq<Patient>)
    | IncidentList(incidents: seq<Incident>)

  type Storage = map<string, Doc>

  /** The provider's state: storage plus the in-memory collections. */
  datatype Store = Store(storage: Storage, patients: seq<Patient>, incidents: seq<Incident>)

  /** The result of an `add*`: the new store and the record it appended. */
  datatype Added<T> = Added(store: Store, record: T)

  // ---------------------------------------------------------------------
  // Built-in first-run data

  const SeedUsers: seq<User> := [
    User("1", Admin, "admin@entnt.in", "admin123", None, "Dr. Smith"),
    User("2", PatientRole, "john@entnt.in", "patient123", Some("p1"), "John Doe")
  ]

  const SeedPatients: seq<Patient> := [
    Patient("p1", "John Doe", "1990-05-10", "1234567890", "john@entnt.in", "No allergies",
            MakeInstant(2024, 0, 1, 0, 0))
  ]

  const SeedIncidents: seq<Incident> := [
    Incident("i1", "p1", "General Checkup", "Annual medical checkup", "All tests completed",
             MakeInstant(2025, 0, 15, 10, 0), Some(100), Some("General examination and blood work"),
             Some(Scheduled), Some(MakeInstant(2025, 0, 22, 10, 0)), [])
  ]

  /** Each of the three keys, when present, holds the kind of list it names. */
  predicate WellTyped(st: Storage)
  {
    && (UsersKey in st ==> st[UsersKey].UserList?)
    && (PatientsKey in st ==> st[PatientsKey].PatientList?)
    && (IncidentsKey in st ==> st[IncidentsKey].IncidentList?)
  }

  // ---------------------------------------------------------------------
  // initializeData

  /** `if (!localStorage.getItem(key)) localStorage.setItem(key, doc)`. */
  function SeedIfAbsent(st: Storage, key: string, doc: Doc): (r: Storage)
    ensures key in r
    ensures r.Keys == st.Keys + {key}
    ensures forall k :: k in st ==> r[k] == st[k]
    ensures key !in st ==> r[key] == doc
  {
    if key in st then st else st[key := doc]
  }

  /** Seeds each of the three keys that is absent; never overwrites a key
      that is present (an empty stored list included). */
  function InitializeData(st: Storage): (r: Storage)
    ensures r.Keys == st.Keys + {UsersKey, PatientsKey, IncidentsKey}
    ensures forall k :: k in st ==> r[k] == st[k]
    ensures UsersKey !in st ==> r[UsersKey] == UserList(SeedUsers)
    ensures PatientsKey !in st ==> r[PatientsKey] == PatientList(SeedPatients)
    ensures IncidentsKey !in st ==> r[IncidentsKey] == IncidentList(SeedIncidents)
    ensures WellTyped(st) ==> WellTyped(r)
  {
    assert UsersKey != PatientsKey && UsersKey != IncidentsKey && PatientsKey != IncidentsKey;
    var st1 := SeedIfAbsent(st, UsersKey, UserList(SeedUsers));
    var st2 := SeedIfAbsent(st1, PatientsKey, PatientList(SeedPatients));
    SeedIfAbsent(st2, IncidentsKey, IncidentList(SeedIncidents))
  }

  /** Initialising twice is initialising once. */
  lemma InitializeIdempotent(st: Storage)
    ensures InitializeData(InitializeData(st)) == InitializeData(st)
  {
  }

  // ---------------------------------------------------------------------
  // loadData, savePatients, saveIncidents

  /** `JSON.parse(localStorage.getItem('patients') || '[]')`: a key never
      written reads as the empty list. */
  function LoadPatients(st: Storage): (ps: seq<Patient>)
    ensures PatientsKey !in st ==> ps == []
    ensures PatientsKey in st && st[PatientsKey].PatientList? ==> ps == st[PatientsKey].patients
  {
    if PatientsKey in st && st[PatientsKey].PatientList? then st[PatientsKey].patients else []
  }

  function LoadIncidents(st: Storage): (incs: seq<Incident>)
    ensures IncidentsKey !in st ==> incs == []
    ensures IncidentsKey in st && st[IncidentsKey].IncidentList? ==> incs == st[IncidentsKey].incidents
  {
    if IncidentsKey in st && st[IncidentsKey].IncidentList? then st[IncidentsKey].incidents else []
  }

  /** Memory holds exactly what storage would load. */
  predicate Synced(s: Store)
  {
    WellTyped(s.storage)
    && s.patients == LoadPatients(s.storage)
    && s.incidents == LoadIncidents(s.storage)
  }

  /** `loadData`: replaces both in-memory collections with what storage holds. */
  function LoadData(s: Store): (r: Store)
    ensures r.storage == s.storage
    ensures WellTyped(s.storage) ==> Synced(r)
    ensures Synced(s) ==> r == s
  {
    Store(s.storage, LoadPatients(s.storage), LoadIncidents(s.storage))
  }

  /** The provider mounting: `initializeData(); loadData();`. */
  function Mount(st: Storage): (r: Store)
    requires WellTyped(st)
    ensures Synced(r)
    ensures forall k :: k in st ==> k in r.storage && r.storage[k] == st[k]
    ensures PatientsKey !in st ==> r.patients == SeedPatients
    ensures IncidentsKey !in st ==> r.incidents == SeedIncidents
    ensures PatientsKey in st ==> r.patients == st[PatientsKey].patients
    ensures IncidentsKey in st ==> r.incidents == st[IncidentsKey].incidents
  {
    LoadData(Store(InitializeData(st), [], []))
  }

  /** `savePatients`: writes the list under its key and into memory. */
  function SavePatients(s: Store, ps: seq<Patient>): (r: Store)
    ensures r.patients == ps && r.incidents == s.incidents
    ensures LoadPatients(r.storage) == ps
    ensures LoadIncidents(r.storage) == LoadIncidents(s.storage)
    ensures r.storage.Keys == s.storage.Keys + {PatientsKey}
    ensures forall k :: k in s.storage && k != PatientsKey ==> r.storage[k] == s.storage[k]
    ensures Synced(s) ==> Synced(r)
  {
    Store(s.storage[PatientsKey := PatientList(ps)], ps, s.incidents)
  }

  /** `saveIncidents`: writes the list under its key and into memory. */
  function SaveIncidents(s: Store, incs: seq<Incident>): (r: Store)
    ensures r.incidents == incs && r.patients == s.patients
    ensures LoadIncidents(r.storage) == incs
    ensures LoadPatients(r.storage) == LoadPatients(s.storage)
    ensures r.storage.Keys == s.storage.Keys + {IncidentsKey}
    ensures forall k :: k in s.storage && k != IncidentsKey ==> r.storage[k] == s.storage[k]
    ensures Synced(s) ==> Synced(r)
  {
    Store(s.storage[IncidentsKey := IncidentList(incs)], s.patients, incs)
  }

  /** One write through `savePatients` or `saveIncidents`. */
  datatype Write = WritePatients(ps: seq<Patient>) | WriteIncidents(incs: seq<Incident>)

  function ApplyWrites(s: Store, ws: seq<Write>): Store
    decreases |ws|
  {
    if ws == [] then s
    else
      var s1 := match ws[0]
        case WritePatients(ps) => SavePatients(s, ps)
        case WriteIncidents(incs) => SaveIncidents(s, incs);
      ApplyWrites(s1, ws[1..])
  }

  /** The patient list of the last `WritePatients` in `ws`, else `before`. */
  function LastPatientsWrite(ws: seq<Write>, before: seq<Patient>): seq<Patient>
    decreases |ws|
  {
    if ws == [] then before
    else LastPatientsWrite(ws[1..], if ws[0].WritePatients? then ws[0].ps else before)
  }

  function LastIncidentsWrite(ws: seq<Write>, before: seq<Incident>): seq<Incident>
    decreases |ws|
  {
    if ws == [] then before
    else LastIncidentsWrite(ws[1..], if ws[0].WriteIncidents? then ws[0].incs else before)
  }

  /** After any sequence of saves, loading returns exactly the last list saved
      under each key (or what was stored before, if that key was not saved),
      whatever memory held in between. */
  lemma {:induction false} LoadAfterWrites(s: Store, ws: seq<Write>)
    ensures LoadPatients(ApplyWrites(s, ws).storage) == LastPatientsWrite(ws, LoadPatients(s.storage))
    ensures LoadIncidents(ApplyWrites(s, ws).storage) == LastIncidentsWrite(ws, LoadIncidents(s.storage))
    ensures Synced(s) ==> Synced(ApplyWrites(s, ws))
    decreases |ws|
  {
    if ws != [] {
      var s1 := match ws[0]
        case WritePatients(ps) => SavePatients(s, ps)
        case WriteIncidents(incs) => SaveIncidents(s, incs);
      LoadAfterWrites(s1, ws[1..]);
    }
  }

  // ---------------------------------------------------------------------
  // Patients

  /** `addPatient`: copies the input's fields, overwrites `id` with a
      `'p'`-prefixed id from the clock value `stamp` and `createdAt` with
      `now`, appends, saves, and returns the new record. */
  function AddPatient(s: Store, input: Patient, stamp: nat, now: int): (r: Added<Patient>)
    ensures r.record.id == PatientId(stamp) && r.record.id[0] == 'p'
    ensures r.record.createdAt == now
    ensures r.record.name == input.name && r.record.dob == input.dob
    ensures r.record.contact == input.contact && r.record.email == input.email
    ensures r.record.healthInfo == input.healthInfo
    ensures r.store.patients == s.patients + [r.record]
    ensures r.store.incidents == s.incidents
    ensures LoadPatients(r.store.storage) == r.store.patients
    ensures Synced(s) ==> Synced(r.store)
    ensures UniquePatientIds(s.patients) && (forall k :: 0 <= k < |s.patients| ==> s.patients[k].id != PatientId(stamp))
            ==> UniquePatientIds(r.store.patients)
  {
    var p := input.(id := PatientId(stamp), createdAt := now);
    Added(SavePatients(s, s.patients + [p]), p)
  }

  /** `patients.map(p => p.id === id ? { ...p, ...patch } : p)`. */
  function PatchPatients(ps: seq<Patient>, id: string, patch: PatientPatch): (r: seq<Patient>)
    ensures |r| == |ps|
    ensures forall k :: 0 <= k < |ps| && ps[k].id == id ==> r[k] == MergePatient(ps[k], patch)
    ensures forall k :: 0 <= k < |ps| && ps[k].id != id ==> r[k] == ps[k]
    decreases |ps|
  {
    if ps == [] then []
    else [if ps[0].id == id then MergePatient(ps[0], patch) else ps[0]] + PatchPatients(ps[1..], id, patch)
  }

  /** `updatePatient`: same length and order; each record with the id is
      shallow-merged with the patch (supplied fields win, `id` and
      `createdAt` included), every other record is untouched, and an unknown
      id leaves the collection as it was. */
  function UpdatePatient(s: Store, id: string, patch: PatientPatch): (r: Store)
    ensures |r.patients| == |s.patients|
    ensures forall k :: 0 <= k < |s.patients| && s.patients[k].id == id ==>
              r.patients[k] == MergePatient(s.patients[k], patch)
    ensures forall k :: 0 <= k < |s.patients| && s.patients[k].id != id ==> r.patients[k] == s.patients[k]
    ensures (forall k :: 0 <= k < |s.patients| ==> s.patients[k].id != id) ==> r.patients == s.patients
    ensures r.incidents == s.incidents
    ensures LoadPatients(r.storage) == r.patients
    ensures Synced(s) ==> Synced(r)
  {
    SavePatients(s, PatchPatients(s.patients, id, patch))
  }

  /** `patients.filter(p => p.id !== id)`. */
  function PatientsWithout(ps: seq<Patient>, id: string): (r: seq<Patient>)
    ensures forall p :: p in r <==> p in ps && p.id != id
    ensures forall p: Patient :: p.id != id ==> multiset(r)[p] == multiset(ps)[p]
    ensures SubsequenceOf(r, ps)
    ensures (forall k :: 0 <= k < |ps| ==> ps[k].id != id) ==> r == ps
  {
    var keep := (p: Patient) => p.id != id;
    FilterMembers(ps, keep);
    FilterIsSubsequence(ps, keep);
    FilterKeepsAll(ps, keep);
    Filter(ps, keep)
  }

  /** `incidents.filter(i => i.patientId !== id)`. */
  function IncidentsNotOf(incs: seq<Incident>, id: string): (r: seq<Incident>)
    ensures forall i :: i in r <==> i in incs && i.patientId != id
    ensures forall i: Incident :: i.patientId != id ==> multiset(r)[i] == multiset(incs)[i]
    ensures SubsequenceOf(r, incs)
    ensures (forall k :: 0 <= k < |incs| ==> incs[k].patientId != id) ==> r == incs
  {
    var keep := (i: Incident) => i.patientId != id;
    FilterMembers(incs, keep);
    FilterIsSubsequence(incs, keep);
    FilterKeepsAll(incs, keep);
    Filter(incs, keep)
  }

  /** `incidents.filter(i => i.id !== id)`. */
  function IncidentsWithout(incs: seq<Incident>, id: string): (r: seq<Incident>)
    ensures forall i :: i in r <==> i in incs && i.id != id
    ensures forall i: Incident :: i.id != id ==> multiset(r)[i] == multiset(incs)[i]
    ensures SubsequenceOf(r, incs)
    ensures (forall k :: 0 <= k < |incs| ==> incs[k].id != id) ==> r == incs
  {
    var keep := (i: Incident) => i.id != id;
    FilterMembers(incs, keep);
    FilterIsSubsequence(incs, keep);
    FilterKeepsAll(incs, keep);
    Filter(incs, keep)
  }

  /** `deletePatient`: removes every patient with the id and, in the same
      step, every incident whose `patientId` is the id; everything else
      survives in its original order. */
  function DeletePatient(s: Store, id: string): (r: Store)
    ensures forall p :: p in r.patients <==> p in s.patients && p.id != id
    ensures forall i :: i in r.incidents <==> i in s.incidents && i.patientId != id
    ensures forall k :: 0 <= k < |r.incidents| ==> r.incidents[k].patientId != id
    ensures forall p: Patient :: p.id != id ==> multiset(r.patients)[p] == multiset(s.patients)[p]
    ensures forall i: Incident :: i.patientId != id ==> multiset(r.incidents)[i] == multiset(s.incidents)[i]
    ensures SubsequenceOf(r.patients, s.patients) && SubsequenceOf(r.incidents, s.incidents)
    ensures (forall k :: 0 <= k < |s.patients| ==> s.patients[k].id != id) ==> r.patients == s.patients
    ensures (forall k :: 0 <= k < |s.incidents| ==> s.incidents[k].patientId != id) ==> r.incidents == s.incidents
    ensures LoadPatients(r.storage) == r.patients && LoadIncidents(r.storage) == r.incidents
    ensures Synced(s) ==> Synced(r)
  {
    var s1 := SavePatients(s, PatientsWithout(s.patients, id));
    var r := SaveIncidents(s1, IncidentsNotOf(s.incidents, id));
    assert forall k :: 0 <= k < |r.incidents| ==> r.incidents[k].patientId != id by {
      forall k | 0 <= k < |r.incidents|
        ensures r.incidents[k].patientId != id
      {
        assert r.incidents[k] in r.incidents;
      }
    }
    r
  }

  // ---------------------------------------------------------------------
  // Incidents

  /** `addIncident`: passes every field through (`status` included, with no
      default), defaults only `files` to the empty list, assigns an
      `'i'`-prefixed id, appends, saves, and returns the new record. */
  function AddIncident(s: Store, draft: IncidentDraft, stamp: nat): (r: Added<Incident>)
    ensures r.record.id == IncidentId(stamp) && r.record.id[0] == 'i'
    ensures draft.files.Some? ==> r.record.files == draft.files.value
    ensures draft.files.None? ==> r.record.files == []
    ensures r.record.status == draft.status
    ensures r.record.patientId == draft.patientId && r.record.title == draft.title
    ensures r.record.description == draft.description && r.record.comments == draft.comments
    ensures r.record.appointmentDate == draft.appointmentDate && r.record.cost == draft.cost
    ensures r.record.treatment == draft.treatment && r.record.nextDate == draft.nextDate
    ensures r.store.incidents == s.incidents + [r.record]
    ensures r.store.patients == s.patients
    ensures LoadIncidents(r.store.storage) == r.store.incidents
    ensures Synced(s) ==> Synced(r.store)
    ensures UniqueIncidentIds(s.incidents) && (forall k :: 0 <= k < |s.incidents| ==> s.incidents[k].id != IncidentId(stamp))
            ==> UniqueIncidentIds(r.store.incidents)
  {
    var i := Incident(IncidentId(stamp), draft.patientId, draft.title, draft.description,
                      draft.comments, draft.appointmentDate, draft.cost, draft.treatment,
                      draft.status, draft.nextDate, draft.files.GetOr([]));
    Added(SaveIncidents(s, s.incidents + [i]), i)
  }

  /** `incidents.map(i => i.id === id ? { ...i, ...patch } : i)`. */
  function PatchIncidents(incs: seq<Incident>, id: string, patch: IncidentPatch): (r: seq<Incident>)
    ensures |r| == |incs|
    ensures forall k :: 0 <= k < |incs| && incs[k].id == id ==> r[k] == MergeIncident(incs[k], patch)
    ensures forall k :: 0 <= k < |incs| && incs[k].id != id ==> r[k] == incs[k]
    decreases |incs|
  {
    if incs == [] then []
    else [if incs[0].id == id then MergeIncident(incs[0], patch) else incs[0]] + PatchIncidents(incs[1..], id, patch)
  }

  /** `updateIncident`: the incident counterpart of `UpdatePatient`. */
  function UpdateIncident(s: Store, id: string, patch: IncidentPatch): (r: Store)
    ensures |r.incidents| == |s.incidents|
    ensures forall k :: 0 <= k < |s.incidents| && s.incidents[k].id == id ==>
              r.incidents[k] == MergeIncident(s.incidents[k], patch)
    ensures forall k :: 0 <= k < |s.incidents| && s.incidents[k].id != id ==> r.incidents[k] == s.incidents[k]
    ensures (forall k :: 0 <= k < |s.incidents| ==> s.incidents[k].id != id) ==> r.incidents == s.incidents
    ensures r.patients == s.patients
    ensures LoadIncidents(r.storage) == r.incidents
    ensures Synced(s) ==> Synced(r)
  {
    SaveIncidents(s, PatchIncidents(s.incidents, id, patch))
  }

  /** `deleteIncident`: removes exactly the incidents with the id, keeps the
      rest in order; an unknown id leaves the collection as it was. */
  function DeleteIncident(s: Store, id: string): (r: Store)
    ensures forall i :: i in r.incidents <==> i in s.incidents && i.id != id
    ensures forall i: Incident :: i.id != id ==> multiset(r.incidents)[i] == multiset(s.incidents)[i]
    ensures SubsequenceOf(r.incidents, s.incidents)
    ensures (forall k :: 0 <= k < |s.incidents| ==> s.incidents[k].id != id) ==> r.incidents == s.incidents
    ensures r.patients == s.patients
    ensures LoadIncidents(r.storage) == r.incidents
    ensures Synced(s) ==> Synced(r)
  {
    SaveIncidents(s, IncidentsWithout(s.incidents, id))
  }

  /** Cascade integrity: after deleting a patient, nothing in the store
      refers to it, and every incident of another patient is still there. */
  lemma DeletePatientCascade(s: Store, id: string, other: Incident)
    requires other in s.incidents && other.patientId != id
    ensures FindPatient(DeletePatient(s, id).patients, id).None?
    ensures Count(DeletePatient(s, id).incidents, (i: Incident) => i.patientId == id) == 0
    ensures other in DeletePatient(s, id).incidents
  {
    var r := DeletePatient(s, id);
    assert forall k :: 0 <= k < |r.patients| ==> r.patients[k].id != id by {
      forall k | 0 <= k < |r.patients|
        ensures r.patients[k].id != id
      {
        assert r.patients[k] in r.patients;
      }
    }
  }
}
