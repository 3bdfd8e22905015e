# Dental Center Dashboard — a Dafny model of the record store and its pages

This project models the data core of the Dental Center Dashboard, a React
single-page application for one dental practice. The model covers:

- the record store (`DataContext`) that holds patients and incidents
  (appointments) in memory and mirrors them into the browser's key-value
  storage;
- the pages that query and change the store:
  - the incidents page: search, status filter, latest-first sort, the
    add/edit form with its files, and delete;
  - the administrator dashboard: KPIs, revenue, the next ten appointments
    and the top five patients;
  - the patient's dashboard;
  - the patient's own profile with booking;
  - the month calendar;
  - the patients page: search, counts, the add/edit form and the cascading
    delete.

Every operation is a pure function over immutable values. The store is a
value `Store(storage, patients, incidents)`. An operation that "saves"
returns a new store whose storage and in-memory lists agree. The `Synced`
invariant states that agreement, and every store operation preserves it.

Clock values are parameters, and so are the user's answer to a
confirmation dialog and the logged-in user's link to a patient record:

- "now" is an instant in milliseconds;
- `Date.now()` used for ids is `stamp`;
- the confirmation dialog's answer is `confirmed`;
- the user's link to a patient record is `linked`.

Dates are day numbers and weekdays computed with the formulas of section
21.4.1 of ECMA-262: `MakeDay`, `DayFromYear` and `WeekDay`.

Modules, in dependency order:

- `Wrappers`: `Option`.
- `Seqs`: filter, take, remove-at, and the stable sort.
- `Text`: ASCII lower-casing, substring search, decimal rendering.
- `Dates`: ECMA-262 day arithmetic.
- `Records`: the entities, shallow merges, ids, and patient lookup.
- `Queries`: per-patient scoping and the upcoming/past split.
- `DataContext`: the store.
- One module per page: `IncidentsPage`, `Dashboard`, `PatientView`,
  `Calendar` and `PatientsPage`.

Some behaviours of the code differ from what a reader might expect. The
model keeps them as written:

- `addIncident` does not default `status`, so `Incident.status` is an
  `Option`.
- `updatePatient` merges whatever it is given, `id` and `createdAt`
  included. The patients page simply never passes those two fields.
- Ids are `'p'`/`'i'` followed by the millisecond clock. Two records made
  in the same millisecond share an id. Wherever uniqueness matters, it is
  a precondition (`UniquePatientIds`, `UniqueIncidentIds`).
- `Array.prototype.sort` is stable. The page comparators are integer
  differences, so the sorts are modelled as a stable insertion sort by an
  integer key. A descending sort is an ascending sort by the negated key.

## Model

| member | source | states |
|---|---|---|
| DataContext.InitializeData | src/context/DataContext.js:48-57 | each of the three keys gets the built-in users, patients or incidents only when absent; a key already present, an empty list included, keeps its value |
| DataContext.InitializeIdempotent | src/context/DataContext.js:48-57 | initialising a second time changes nothing |
| DataContext.Mount | src/context/DataContext.js:64-67 | after initialising and loading, memory agrees with storage, and a list that was stored before is what is loaded, else the seed |
| DataContext.LoadData | src/context/DataContext.js:69-74 | loading keeps storage, brings memory in agreement with it, and changes nothing when they already agree |
| DataContext.LoadPatients | src/context/DataContext.js:70 | a key never written reads as the empty list |
| DataContext.LoadIncidents | src/context/DataContext.js:71 | a key never written reads as the empty list; a stored incident list is read back as stored |
| DataContext.SavePatients | src/context/DataContext.js:76-79 | the new list is what memory holds and what storage loads; the incidents and every other key are unchanged |
| DataContext.SaveIncidents | src/context/DataContext.js:81-84 | the incident counterpart of saving patients |
| DataContext.LoadAfterWrites | src/context/DataContext.js:76-84 | after any sequence of saves, storage loads the last list saved under each key, and memory and storage still agree |
| DataContext.AddPatient | src/context/DataContext.js:86-95 | the new record keeps the input's fields under a `'p'` id and creation time `now`, is appended last, and keeps ids unique when the id is fresh |
| Records.IdsFromStamps | src/context/DataContext.js:89 | ids made at different milliseconds differ, ids made at the same one coincide, and a patient id is never an incident id |
| DataContext.UpdatePatient | src/context/DataContext.js:97-102 | every patient with the id is merged with the patch, the others and all incidents are unchanged, and an unknown id changes nothing |
| Records.MergePatient | src/context/DataContext.js:99 | field by field, a supplied field wins and an absent one keeps the record's value, `id` and `createdAt` included |
| Records.MergePatientLaws | src/context/DataContext.js:99 | the empty patch is the identity, merging is idempotent, and two merges in turn are one merge of the combined patch |
| DataContext.DeletePatient | src/context/DataContext.js:104-109 | exactly the patients with the id and the incidents naming it go; everything else keeps its multiplicity and order |
| DataContext.DeletePatientCascade | src/context/DataContext.js:104-109 | after the delete, no patient has the id, no incident refers to it, and another patient's incident survives |
| DataContext.AddIncident | src/context/DataContext.js:111-120 | every field passes through with `status` not defaulted, `files` defaults to empty, an `'i'` id is given, and the record is appended last |
| DataContext.UpdateIncident | src/context/DataContext.js:122-127 | every incident with the id is merged with the patch, the others and all patients are unchanged |
| Records.MergeIncident | src/context/DataContext.js:124 | a supplied field wins and an absent one keeps the record's value |
| Records.MergeIncidentLaws | src/context/DataContext.js:124 | the empty patch is the identity and merging the same patch twice is merging it once |
| DataContext.DeleteIncident | src/context/DataContext.js:129-132 | exactly the incidents with the id go, the rest keep their order, and an unknown id changes nothing |
| Records.FindPatient | src/pages/PatientView.js:28 | `None` exactly when no patient has the id, otherwise the first patient with it |
| Records.FindPatientUnique | src/pages/PatientView.js:28 | with unique ids, looking up a patient's id finds that patient |
| Records.FindPatientFirst | src/pages/PatientView.js:28 | the lookup returns the first patient holding the id, whether or not later ones share it |
| IncidentsPage.ShownIncidents | src/pages/Incidents.js:25-32 | the incidents passing search and status filter, each as often as in the store |
| IncidentsPage.MatchesSearch | src/pages/Incidents.js:26-31 | the empty term matches every incident; when the patient does not resolve, only the title and description are searched |
| IncidentsPage.FilteredIncidents | src/pages/Incidents.js:25-33 | the passing incidents, each as often as in the store, ordered latest appointment first |
| IncidentsPage.FilteredIncidentsMembers | src/pages/Incidents.js:25-32 | an incident is listed if and only if it is in the store and passes both filters |
| IncidentsPage.FilteredIncidentsStable | src/pages/Incidents.js:33 | incidents with the same appointment time stay in store order |
| Seqs.StableSortUnique | src/pages/Incidents.js:33 | a stable sorted permutation is unique, so the sort is fully determined by key and input order |
| IncidentsPage.SearchProperties | src/pages/Incidents.js:27-31 | the search ignores the case of the term, and the empty term with "All" shows every incident |
| IncidentsPage.SearchByPatientName | src/pages/Incidents.js:26-30 | an incident whose patient does not resolve is found only by title or description; a term in the resolving patient's name finds it |
| IncidentsPage.SubmitIncident | src/pages/Incidents.js:35-52 | editing rewrites every incident with the target's id to the form's record under that id; adding appends it under a fresh `'i'` id; patients are never touched |
| IncidentsPage.ReduceFiles | src/pages/Incidents.js:40-45 | reducing each file to name, size, type and url loses nothing of an attachment |
| IncidentsPage.EditForm | src/pages/Incidents.js:77-90 | a zero or missing cost and a missing treatment become empty inputs; other costs and treatments are copied |
| IncidentsPage.ResubmitUnchanged | src/pages/Incidents.js:77-90 | opening an incident and saving it unchanged alters only a zero cost (dropped) and a missing treatment (made empty); every other incident is untouched |
| IncidentsPage.HandleDelete | src/pages/Incidents.js:94-98 | a confirmed delete removes exactly the incidents with the id, and every other incident stays as often as it was stored and in store order; a declined one changes nothing |
| IncidentsPage.AcceptUploads | src/pages/Incidents.js:100-128 | existing files are kept in front; after them come exactly the picked files of at most 5 MB, each as often as picked and in the order picked |
| IncidentsPage.UploadsInBatches | src/pages/Incidents.js:100-128 | picking files in two batches attaches the same files, in the same order, as picking both batches at once |
| IncidentsPage.RemoveFile | src/pages/Incidents.js:130-135 | an in-range index drops exactly that file; an out-of-range index changes nothing; no other form field changes |
| Records.PatientName | src/pages/Incidents.js:137-140 | the name of the first patient with the id, duplicates or not, or "Unknown Patient" when none has it; the calendar's identical lookup (src/pages/Calendar.js:57-60) is the same member |
| Dashboard.ComputeKpis | src/pages/Dashboard.js:18-25 | the totals are the list lengths; completed and pending are the numbers of Completed and of Scheduled incidents, never together more than the total, each zero exactly when no incident has that status; the revenue is the sum of the completed costs |
| Dashboard.KpisAppend | src/pages/Dashboard.js:18-25 | one more incident raises the incident total by one, the completed or pending figure by one when it has that status, and the revenue by its cost when it is completed with a non-zero cost |
| Dashboard.TotalRevenue | src/pages/Dashboard.js:23-25 | no billable incident gives zero, and the revenue is at least each billable cost |
| Dashboard.RevenueIsCompletedCostSum | src/pages/Dashboard.js:23-25 | the revenue is the sum of the costs of all completed incidents, a missing cost counting as zero |
| Dashboard.RevenueAppend | src/pages/Dashboard.js:23-25 | the revenue of two lists joined is the sum of their revenues |
| Dashboard.RevenueOfOne | src/pages/Dashboard.js:23-25 | one incident contributes its cost when completed with a non-zero cost, and nothing otherwise |
| Dashboard.RevenueExample | src/pages/Dashboard.js:23-25 | three completed incidents costing 100, nothing and 50 give 150 |
| Dashboard.RevenueAsWrittenOnNumbers | src/pages/Dashboard.js:23-25 | with numeric costs, the reduction with JavaScript `+` is exactly the revenue |
| Dashboard.RevenueAsWritten | src/pages/Dashboard.js:23-25 | the reduction as written: zero when nothing is billable, and text as soon as one billable cost is text |
| Dashboard.MixedCostsConcatenate | src/pages/Dashboard.js:23-25 | a numeric cost 100 followed by a typed cost "50" reduces to the text "10050" |
| Dashboard.TypedCostConcatenates | src/pages/Incidents.js:389 | a single completed incident whose cost was typed as "100" reduces to the text "0100" |
| Dashboard.UpcomingAppointments | src/pages/Dashboard.js:28-31 | the first ten (or all, when fewer) of the upcoming list sorted earliest first; no incident more often than in the store, all at or after now; when fewer than ten are shown, all upcoming ones are |
| Dashboard.UpcomingAreEarliest | src/pages/Dashboard.js:28-31 | an upcoming appointment left off the list is no earlier than any appointment on it |
| Dashboard.WithCounts | src/pages/Dashboard.js:34-36 | each patient, in order, paired with the number of incidents naming them |
| Dashboard.Ranked | src/pages/Dashboard.js:34-37 | a permutation of the patients with their counts, most appointments first |
| Dashboard.RankedStable | src/pages/Dashboard.js:37 | patients with equal counts keep their store order |
| Dashboard.TopPatients | src/pages/Dashboard.js:37 | the first five of the ranking, or all when there are fewer than five patients |
| Queries.AppointmentCount | src/pages/Dashboard.js:34-36 | the count is zero exactly when no incident names the patient, and the whole list exactly when every incident does |
| Dashboard.TopPatientsAreTop | src/pages/Dashboard.js:34-37 | a patient left out of the top five has no more appointments than anyone in it |
| Dashboard.NameOf | src/pages/Dashboard.js:56 | no name when the user is unlinked or no patient has the linked id; otherwise the name of the first patient with that id |
| Queries.IncidentsOf | src/pages/Dashboard.js:57 | exactly the incidents naming the linked patient, as often and in the order of the store; nothing for an unlinked user |
| Dashboard.UserUpcoming | src/pages/Dashboard.js:58-60 | each of the user's appointments at or after now exactly as often as in the store, earliest first |
| Dashboard.UserUpcomingComplete | src/pages/Dashboard.js:58-60 | every upcoming appointment of the user is on the list |
| Dashboard.RecentTreatments | src/pages/Dashboard.js:118-123 | at most five of the user's completed incidents, and five whenever there are that many |
| Dashboard.RecentIsFirstCompleted | src/pages/Dashboard.js:118-123 | the recent treatments are the first five incidents, in store order, that are both the user's and completed |
| Dashboard.PatientHomeView | src/pages/Dashboard.js:54-83 | the name is the linked patient's, the total is their appointment count, the completed figure the number of their Completed incidents, and the lists are their upcoming appointments and recent treatments; an unlinked user sees nothing |
| PatientView.ViewProfile | src/pages/PatientView.js:91-101 | the not-found screen exactly when the user is unlinked or no patient has the linked id; otherwise that patient's profile |
| PatientView.ProfileOf | src/pages/PatientView.js:29-37 | the patient's appointments, each as often as in the store and in store order, split into upcoming (at or after now, earliest first) and past (before now, latest first) whose multisets add up to the appointments; the completed count is the number of completed appointments |
| Queries.UpcomingSorted | src/pages/PatientView.js:31-33 | each appointment at or after now exactly as often as in the list, earliest first |
| Queries.PastSorted | src/pages/PatientView.js:35-37 | each appointment before now exactly as often as in the list, latest first |
| Queries.UpcomingSortedStable | src/pages/PatientView.js:31-33 | the sort is stable: the upcoming appointments sharing a date are all listed, in store order, and none is listed for a date before now |
| Queries.PastSortedStable | src/pages/PatientView.js:35-37 | the past appointments sharing a date are all listed, in store order, and none is listed for a date at or after now |
| Queries.UpcomingSortedMembers | src/pages/PatientView.js:31-33 | an incident is upcoming on the list if and only if it is in the input and not before now |
| Queries.UpcomingPastPartition | src/pages/PatientView.js:31-37 | upcoming and past together hold each appointment exactly once |
| PatientView.ProfileSplit | src/pages/PatientView.js:31-37 | on the profile no appointment is both upcoming and past, and one at exactly now is upcoming |
| PatientView.HomeAgreesWithProfile | src/pages/Dashboard.js:56-60 | for a linked patient, the dashboard shows the same name, appointment count, completed count and upcoming list as the profile page (src/pages/PatientView.js:28-37) |
| PatientView.BookingDraft | src/pages/PatientView.js:63-71 | a booking carries the user's patient id, the form's fields, status "Scheduled" and no files, cost, treatment or next date |
| PatientView.Book | src/pages/PatientView.js:61-72 | booking appends exactly the booked incident and leaves the patients alone |
| PatientView.BookingShowsInProfile | src/pages/PatientView.js:163-189 | after booking, the profile lists the new appointment, the count grows by one, and it is upcoming exactly when its date is not before now |
| Queries.AppointmentCountAppend | src/pages/Patients.js:55-57 | adding an incident raises its patient's count by one and no one else's |
| Calendar.GetDaysInMonth | src/pages/Calendar.js:17-38 | one blank cell per weekday before the 1st, then one cell per day of the month, in order |
| Calendar.FillGrid | src/pages/Calendar.js:25-36 | the two loops push exactly `startingDay` blanks, then consecutive days from the 1st |
| Calendar.LastDayIsMonthLength | src/pages/Calendar.js:21-22 | day 0 of the next month is the month's last day, so its date is the month's length |
| Dates.DayZeroOfNextMonth | src/pages/Calendar.js:21 | `new Date(year, month + 1, 0)` is the last day of `month`, December included |
| Calendar.GridColumnsAreWeekdays | src/pages/Calendar.js:23-35 | date d of the month sits at grid index k, the blank count plus d minus 1; it is d minus 1 days after the 1st and falls on weekday k mod 7 |
| Calendar.PrevMonth | src/pages/Calendar.js:40-42 | the previous month, January going to December of the year before, is the month of `new Date(year, month - 1, 1)` |
| Calendar.NextMonth | src/pages/Calendar.js:44-46 | the next month, December going to January of the year after, is the month of `new Date(year, month + 1, 1)` |
| Calendar.NextMonthFollows | src/pages/Calendar.js:44-46 | the 1st of the next month is the day after the last day of this one |
| Calendar.PrevNextInverse | src/pages/Calendar.js:40-46 | going back a month and forward again, or the reverse, returns to the same month |
| Calendar.AppointmentsForDate | src/pages/Calendar.js:48-55 | a blank cell has no appointments; a day cell has exactly the incidents whose instant falls within that day, each as often as in the store and in store order |
| Calendar.DayBuckets | src/pages/Calendar.js:48-55 | no appointment shows in two different day cells, and each shows in the cell of its own day |
| Calendar.ViewCell | src/pages/Calendar.js:126-141 | at most the first three appointments are shown, "+n more" appears exactly when there are more than three, and shown plus n is the total |
| PatientsPage.FilteredPatients | src/pages/Patients.js:19-23 | exactly the matching patients, each as often and in the order of the store |
| PatientsPage.PatientMatches | src/pages/Patients.js:19-23 | the empty term matches every patient, and so does the patient's contact number typed exactly |
| PatientsPage.SearchCase | src/pages/Patients.js:19-23 | the empty search lists every patient; name and e-mail are matched regardless of the term's case; the contact is matched as typed |
| PatientsPage.PatientAppointmentCount | src/pages/Patients.js:55-57 | the number of incidents naming the patient, the same as on the patient's profile; zero exactly when none does |
| Queries.AppointmentCountIsLength | src/pages/Patients.js:55-57 | the count is the length of the patient's own incident list |
| PatientsPage.FormPatch | src/pages/Patients.js:11-17 | the form's patch never carries an id or a creation time |
| PatientsPage.EditPatientForm | src/pages/Patients.js:37-45 | the form filled from a patient, saved under that patient's id and creation time, gives back the patient |
| PatientsPage.SubmitPatient | src/pages/Patients.js:25-35 | editing gives every patient with the target's id the form's five fields and keeps its own id and creation time; adding appends a new patient under a fresh `'p'` id |
| PatientsPage.SubmitKeepsIdsUnique | src/pages/Patients.js:25-31 | submitting keeps patient ids distinct, for an add given a fresh id |
| PatientsPage.ResubmitPatientUnchanged | src/pages/Patients.js:37-45 | opening a patient and saving the form unchanged leaves the patient list as it was |
| PatientsPage.HandleDelete | src/pages/Patients.js:49-53 | a confirmed delete removes the patient and all their appointments, leaving a count of zero, and every other patient and appointment stays as often as it was stored and in store order; a declined one changes nothing |

## Left out

- Rendering is not modelled: React state, modals and styling, `getStatusColor`, `isToday`, and the highlight of the selected calendar cell. Only the values the pages compute are modelled.
- Storage holds typed lists, not JSON text. Parsing and serialising are not modelled. Storage writes never fail, so the quota error that `handleSubmit` in src/pages/Incidents.js:56-59 catches is not modelled.
- Authentication is not modelled. The logged-in user's `patientId` is the `linked` parameter, and the `users` key is only seeded, never read.
- The clock is a parameter. `Date.now()` (ids) is `stamp`, and `new Date()` is `now`, an instant in milliseconds. `createdAt` is that instant, not its ISO-8601 text.
- One render reads one instant. The source calls `new Date()` anew inside each filter callback (src/pages/PatientView.js:32 and 36, src/pages/Dashboard.js:29 and 59). The model uses a single `now` for all of them, so `Queries.UpcomingPastPartition` and `PatientView.ProfileSplit` assume no clock tick between the two filters. Across a tick, an appointment whose instant falls between the two clock reads can be listed as both upcoming and past.
- Years are taken as written. The `Date` constructor maps a year from 0 to 99 to 1900 plus that year, and `MakeDay` in `Calendar.GetDaysInMonth`, `Calendar.PrevMonth` and `Calendar.NextMonth` does not model that mapping.
- Stored date strings are instants in local time. There are no time zones and no daylight saving time, and invalid date strings (NaN) are not modelled. `toDateString` equality is equality of day numbers.
- Lower-casing covers ASCII only. Other Unicode case mappings are not modelled.
- `window.confirm` is the `confirmed` parameter. `alert` messages are not modelled.
- IncidentsPage.AcceptUploads: `FileReader` is asynchronous and may fail. The model covers the outcome where every read succeeds and completes in picked order. The data URL is part of the `Attachment` value.
- The incidents form's cost is `Option<nat>`, as if the number input were read as a number. The text the form actually stores is modelled separately under "Findings".
- `handleFileDownload` (src/pages/PatientView.js:52-59) is not modelled: it is browser I/O.
- The patient dashboard shows the first five of its upcoming list (src/pages/Dashboard.js:94). Only the full list, which the count at line 83 uses, is modelled.
- `Calendar.MonthCursor` keeps only the displayed year and month. The day of `currentDate` is never read by the page.
- Routing and the login page (src/App.js, src/pages/Login.js) are not part of this model.

## Findings

| source | as written | input that shows it | evidently intended | confidence | as-written member | corrected member |
|---|---|---|---|---|---|---|
| src/pages/Dashboard.js:23-25 | `totalRevenue` adds costs with JavaScript `+`. The form stores a typed cost as the input's text (src/pages/Incidents.js:389), so a text cost turns the sum into string concatenation (`Dashboard.RevenueAsWritten`). | A seeded completed incident costing 100, then a completed incident whose cost was typed as "50". The revenue is "10050", not 150. A single typed cost "100" gives "0100". | The numeric sum of the completed, non-zero costs: 150 here. | not executed | Dashboard.MixedCostsConcatenate | Dashboard.TotalRevenue |
