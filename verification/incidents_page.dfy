/** The appointments page: the searchable, status-filtered list sorted latest
    first, the add/edit form with its attached files, and its submission to
    the store. */
module IncidentsPage {
  import opened Wrappers
  import opened Seqs
  import opened Text
  import opened Records
  import opened Queries
  import opened DataContext

  /** The status drop-down: "All" or one status. */
  datatype StatusFilter = All | Only(status: Status)

  /** The search box matches the lower-cased term against the lower-cased
      title, description, and the name of the incident's patient when that
      patient resolves. */
  predicate MatchesSearch(i: Incident, patients: seq<Patient>, term: string): (b: bool)
    ensures term == "" ==> b
    ensures FindPatient(patients, i.patientId).None? ==>
              (b <==> Contains(Lower(i.title), Lower(term)) || Contains(Lower(i.description), Lower(term)))
  {
    ContainsTrivial(Lower(i.title));
    var t := Lower(term);
    || Contains(Lower(i.title), t)
    || Contains(Lower(i.description), t)
    || (match FindPatient(patients, i.patientId)
        case None => false
        case Some(p) => Contains(Lower(p.name), t))
  }

  predicate MatchesStatus(i: Incident, filter: StatusFilter)
  {
    filter.All? || i.status == Some(filter.status)
  }

  predicate Shown(i: Incident, patients: seq<Patient>, term: string, filter: StatusFilter)
  {
    MatchesSearch(i, patients, term) && MatchesStatus(i, filter)
  }

  /** The incidents passing both filters, in store order. */
  function ShownIncidents(incidents: seq<Incident>, patients: seq<Patient>, term: string,
                          filter: StatusFilter): (r: seq<Incident>)
    ensures forall i :: multiset(r)[i] == if Shown(i, patients, term, filter) then multiset(incidents)[i] else 0
    ensures |r| <= |incidents|
  {
    Filter(incidents, (i: Incident) => Shown(i, patients, term, filter))
  }

  /** `filteredIncidents`: the incidents passing both the search and the
      status filter, each as often as in the store, latest appointment first. */
  function FilteredIncidents(incidents: seq<Incident>, patients: seq<Patient>, term: string,
                             filter: StatusFilter): (r: seq<Incident>)
    ensures forall i :: multiset(r)[i] == if Shown(i, patients, term, filter) then multiset(incidents)[i] else 0
    ensures forall j, k :: 0 <= j < k < |r| ==> r[j].appointmentDate >= r[k].appointmentDate
    ensures |r| <= |incidents|
  {
    var shown := ShownIncidents(incidents, patients, term, filter);
    var r := SortBy(shown, LatestFirstKey);
    assert multiset(r) == multiset(shown) && |r| == |shown|;
    assert SortedBy(r, LatestFirstKey);
    r
  }

  /** An incident is listed exactly when it is in the store and passes both filters. */
  lemma FilteredIncidentsMembers(incidents: seq<Incident>, patients: seq<Patient>, term: string,
                                 filter: StatusFilter, i: Incident)
    ensures i in FilteredIncidents(incidents, patients, term, filter)
        <==> i in incidents && Shown(i, patients, term, filter)
  {
    var r := FilteredIncidents(incidents, patients, term, filter);
    assert i in r <==> i in multiset(r);
    assert i in incidents <==> i in multiset(incidents);
  }

  /** Incidents with the same appointment time keep their store order in the
      sorted list (the sort is stable): for every sort key `v`, the incidents
      with that key appear in the same relative order as in the store. */
  lemma FilteredIncidentsStable(incidents: seq<Incident>, patients: seq<Patient>, term: string,
                                filter: StatusFilter, v: int)
    ensures KeyClass(FilteredIncidents(incidents, patients, term, filter), LatestFirstKey, v)
         == KeyClass(ShownIncidents(incidents, patients, term, filter), LatestFirstKey, v)
  {
    SortByStable(ShownIncidents(incidents, patients, term, filter), LatestFirstKey, v);
  }

  /** The search ignores case: searching for a term or its lower-cased form
      selects the same incidents; the empty search with "All" keeps everything. */
  lemma SearchProperties(i: Incident, patients: seq<Patient>, term: string)
    ensures MatchesSearch(i, patients, Lower(term)) == MatchesSearch(i, patients, term)
    ensures Shown(i, patients, "", All)
  {
    LowerIdempotent(term);
    ContainsTrivial(Lower(i.title));
  }

  /** How the patient's name takes part in the search: with unique ids, a
      term found in the resolving patient's name selects the incident; an
      incident whose patient does not resolve is found only through its
      title or description. */
  lemma SearchByPatientName(i: Incident, patients: seq<Patient>, term: string)
    ensures (forall k :: 0 <= k < |patients| ==> patients[k].id != i.patientId) ==>
              (MatchesSearch(i, patients, term) <==>
                 (Contains(Lower(i.title), Lower(term)) || Contains(Lower(i.description), Lower(term))))
    ensures UniquePatientIds(patients) ==>
              forall p :: p in patients && p.id == i.patientId && Contains(Lower(p.name), Lower(term))
                ==> MatchesSearch(i, patients, term)
  {
    if UniquePatientIds(patients) {
      forall p | p in patients && p.id == i.patientId
        ensures FindPatient(patients, i.patientId) == Some(p)
      {
        FindPatientUnique(patients, p);
      }
    }
  }

  // ---------------------------------------------------------------------
  // The form

  /** The add/edit form's fields; an empty cost or next-date input is `None`. */
  datatype IncidentForm = IncidentForm(
    patientId: string,
    title: string,
    description: string,
    comments: string,
    appointmentDate: int,
    cost: Option<nat>,
    treatment: string,
    status: Option<Status>,
    nextDate: Option<int>,
    files: seq<Attachment>)

  /** `resetForm`: empty fields, status "Scheduled", no files. */
  const BlankForm := IncidentForm("", "", "", "", 0, None, "", Some(Scheduled), None, [])

  /** `handleEdit`: the form filled from an incident. A zero cost and a
      missing treatment are falsy and become empty inputs. */
  function EditForm(i: Incident): (f: IncidentForm)
    ensures f.cost.Some? ==> f.cost == i.cost && f.cost.value != 0
    ensures f.cost.None? ==> i.cost == None || i.cost == Some(0)
    ensures i.treatment.Some? ==> f.treatment == i.treatment.value
    ensures i.treatment.None? ==> f.treatment == ""
  {
    IncidentForm(i.patientId, i.title, i.description, i.comments, i.appointmentDate,
                 if i.cost == Some(0) then None else i.cost,
                 i.treatment.GetOr(""), i.status, i.nextDate, i.files)
  }

  const MaxUploadSize: nat := 5 * 1024 * 1024

  /** A file the 5 MB guard lets through. */
  predicate WithinLimit(a: Attachment) { a.size <= MaxUploadSize }

  /** `handleFileUpload`: appends the picked files no larger than 5 MB, in
      the order picked; larger ones are rejected and never reach the form. */
  function AcceptUploads(files: seq<Attachment>, picked: seq<Attachment>): (r: seq<Attachment>)
    ensures |files| <= |r| && r[..|files|] == files
    ensures forall k :: |files| <= k < |r| ==> r[k].size <= MaxUploadSize && r[k] in picked
    ensures forall a :: a in picked && a.size <= MaxUploadSize ==> a in r
    ensures |r| - |files| <= |picked|
    ensures SubsequenceOf(r[|files|..], picked)
    ensures forall a :: multiset(r[|files|..])[a] == if a.size <= MaxUploadSize then multiset(picked)[a] else 0
  {
    FilterMembers(picked, WithinLimit);
    FilterIsSubsequence(picked, WithinLimit);
    var added := Filter(picked, WithinLimit);
    assert (files + added)[|files|..] == added;
    assert forall k :: |files| <= k < |files + added| ==> (files + added)[k] == added[k - |files|];
    files + added
  }

  /** Picking files in two batches attaches the same files, in the same
      order, as picking both batches at once. */
  lemma UploadsInBatches(files: seq<Attachment>, first: seq<Attachment>, second: seq<Attachment>)
    ensures AcceptUploads(AcceptUploads(files, first), second) == AcceptUploads(files, first + second)
  {
    var mid := AcceptUploads(files, first);
    assert mid == files + Filter(first, WithinLimit);
    FilterInBatches(files, first, second, WithinLimit);
  }

  /** `removeFile(index)`: the form's files without the one at `index`. */
  function RemoveFile(form: IncidentForm, index: int): (r: IncidentForm)
    ensures 0 <= index < |form.files| ==> |r.files| == |form.files| - 1
    ensures 0 <= index < |form.files| ==> r.files == form.files[..index] + form.files[index + 1..]
    ensures !(0 <= index < |form.files|) ==> r.files == form.files
    ensures r.(files := form.files) == form
  {
    var files := RemoveAt(form.files, index);
    assert 0 <= index < |form.files| ==> files == form.files[..index] + form.files[index + 1..];
    form.(files := files)
  }

  /** Each file reduced to `{ name, size, type, url }`. */
  function ReduceFiles(files: seq<Attachment>): (r: seq<Attachment>)
    ensures r == files
    decreases |files|
  {
    if files == [] then []
    else [Attachment(files[0].name, files[0].size, files[0].mimeType, files[0].url)] + ReduceFiles(files[1..])
  }

  /** The update payload `{ ...formData, files }`: every form field, no id. */
  function FormPatch(form: IncidentForm): IncidentPatch
  {
    IncidentPatch(None, Some(form.patientId), Some(form.title), Some(form.description),
                  Some(form.comments), Some(form.appointmentDate), Some(form.cost),
                  Some(Some(form.treatment)), Some(form.status), Some(form.nextDate),
                  Some(ReduceFiles(form.files)))
  }

  /** The add payload: the same fields as a draft for `addIncident`. */
  function FormDraft(form: IncidentForm): IncidentDraft
  {
    IncidentDraft(form.patientId, form.title, form.description, form.comments,
                  form.appointmentDate, form.cost, Some(form.treatment), form.status,
                  form.nextDate, Some(ReduceFiles(form.files)))
  }

  /** The record the form describes, under a given id. */
  function FormRecord(form: IncidentForm, id: string): Incident
  {
    Incident(id, form.patientId, form.title, form.description, form.comments,
             form.appointmentDate, form.cost, Some(form.treatment), form.status,
             form.nextDate, form.files)
  }

  /** `handleSubmit`: with an edit target, every incident carrying the
      target's id becomes the form's record under that same id and the others
      are untouched; without one, the form's record is appended under a fresh
      `'i'` id. Patients are never touched. */
  function SubmitIncident(s: Store, editing: Option<Incident>, form: IncidentForm, stamp: nat): (r: Store)
    ensures r.patients == s.patients
    ensures editing.Some? ==> |r.incidents| == |s.incidents|
    ensures editing.Some? ==> forall k :: 0 <= k < |s.incidents| ==>
              r.incidents[k] == if s.incidents[k].id == editing.value.id
                                then FormRecord(form, s.incidents[k].id) else s.incidents[k]
    ensures editing.None? ==> r.incidents == s.incidents + [FormRecord(form, IncidentId(stamp))]
    ensures Synced(s) ==> Synced(r)
  {
    match editing
    case Some(target) => UpdateIncident(s, target.id, FormPatch(form))
    case None => AddIncident(s, FormDraft(form), stamp).store
  }

  /** Opening an incident for editing and saving it unchanged rewrites it
      with only two differences: a zero cost is dropped and a missing
      treatment becomes the empty one. Every other incident is untouched. */
  lemma ResubmitUnchanged(s: Store, i: Incident)
    requires UniqueIncidentIds(s.incidents) && i in s.incidents
    ensures forall k :: 0 <= k < |s.incidents| ==>
              SubmitIncident(s, Some(i), EditForm(i), 0).incidents[k]
                == if s.incidents[k] == i
                   then i.(cost := if i.cost == Some(0) then None else i.cost,
                           treatment := Some(i.treatment.GetOr("")))
                   else s.incidents[k]
  {
    var r := SubmitIncident(s, Some(i), EditForm(i), 0);
    forall k | 0 <= k < |s.incidents|
      ensures s.incidents[k].id == i.id <==> s.incidents[k] == i
    {
      var j :| 0 <= j < |s.incidents| && s.incidents[j] == i;
      assert s.incidents[k].id == i.id ==> k == j;
    }
  }

  /** `handleDelete`: when the user confirms, the incident goes and the
      rest stay in order; otherwise nothing changes. */
  function HandleDelete(s: Store, id: string, confirmed: bool): (r: Store)
    ensures !confirmed ==> r == s
    ensures confirmed ==> forall i :: i in r.incidents <==> i in s.incidents && i.id != id
    ensures confirmed ==> forall i: Incident :: multiset(r.incidents)[i] == if i.id == id then 0 else multiset(s.incidents)[i]
    ensures SubsequenceOf(r.incidents, s.incidents)
    ensures r.patients == s.patients
    ensures Synced(s) ==> Synced(r)
  {
    SubsequenceOfSelf(s.incidents);
    if confirmed then DeleteIncident(s, id) else s
  }
}
