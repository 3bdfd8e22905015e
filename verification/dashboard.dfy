/** The dashboard: the administrator's figures (patients, appointments,
    completed and pending treatments, revenue), the next ten appointments,
    the five patients with most appointments, and the patient's own home
    view (their appointments, the upcoming ones, the recent treatments). */
module Dashboard {
  import opened Wrappers
  import opened Seqs
  import opened Text
  import opened Records
  import opened Queries

  // ---------------------------------------------------------------------
  // Revenue

  /** `i.status === 'Completed' && i.cost`: a completed incident with a
      truthy (present and non-zero) cost. */
  predicate Billable(i: Incident)
  {
    IsCompleted(i) && i.cost.Some? && i.cost.value != 0
  }

  /** `i.cost || 0`. */
  function CostOrZero(i: Incident): nat
  {
    i.cost.GetOr(0)
  }

  /** `reduce((sum, i) => sum + (i.cost || 0), 0)`. */
  function SumCosts(s: seq<Incident>): nat
    decreases |s|
  {
    if s == [] then 0 else CostOrZero(s[0]) + SumCosts(s[1..])
  }

  lemma {:induction false} SumCostsAppend(a: seq<Incident>, b: seq<Incident>)
    ensures SumCosts(a + b) == SumCosts(a) + SumCosts(b)
    decreases |a|
  {
    if a == [] {
      assert a + b == b;
    } else {
      assert (a + b)[1..] == a[1..] + b;
      SumCostsAppend(a[1..], b);
    }
  }

  /** A sum of costs is at least each cost in it. */
  lemma {:induction false} SumCostsAtLeast(s: seq<Incident>, x: Incident)
    requires x in s
    ensures SumCosts(s) >= CostOrZero(x)
    decreases |s|
  {
    if s[0] != x {
      SumCostsAtLeast(s[1..], x);
    }
  }

  lemma {:induction false} BilledCosts(incidents: seq<Incident>)
    ensures (forall k :: 0 <= k < |incidents| ==> !Billable(incidents[k])) ==> Filter(incidents, Billable) == []
    ensures forall k :: 0 <= k < |incidents| && Billable(incidents[k]) ==>
              SumCosts(Filter(incidents, Billable)) >= incidents[k].cost.value
  {
    var billed := Filter(incidents, Billable);
    if forall k :: 0 <= k < |incidents| ==> !Billable(incidents[k]) {
      FilterNone(incidents, Billable);
    }
    forall k | 0 <= k < |incidents| && Billable(incidents[k])
      ensures SumCosts(billed) >= incidents[k].cost.value
    {
      assert incidents[k] in multiset(incidents);
      assert incidents[k] in multiset(billed);
      SumCostsAtLeast(billed, incidents[k]);
    }
  }

  /** `totalRevenue`: the costs of the billable incidents, summed. */
  function TotalRevenue(incidents: seq<Incident>): (r: nat)
    ensures (forall k :: 0 <= k < |incidents| ==> !Billable(incidents[k])) ==> r == 0
    ensures forall k :: 0 <= k < |incidents| && Billable(incidents[k]) ==> r >= incidents[k].cost.value
  {
    BilledCosts(incidents);
    SumCosts(Filter(incidents, Billable))
  }

  /** The revenue is the sum over all completed incidents with a missing
      cost counting as zero: dropping the zero and missing costs changes
      nothing, and the status of the other incidents plays no part. */
  lemma {:induction false} RevenueIsCompletedCostSum(incidents: seq<Incident>)
    ensures TotalRevenue(incidents) == SumCosts(Filter(incidents, IsCompleted))
    decreases |incidents|
  {
    if incidents != [] {
      RevenueIsCompletedCostSum(incidents[1..]);
      var x := incidents[0];
      var restB := Filter(incidents[1..], Billable);
      var restC := Filter(incidents[1..], IsCompleted);
      if Billable(x) {
        assert ([x] + restB)[1..] == restB;
      }
      if IsCompleted(x) {
        assert ([x] + restC)[1..] == restC;
      }
    }
  }

  /** Revenue adds up over a split of the incidents. */
  lemma {:induction false} RevenueAppend(a: seq<Incident>, b: seq<Incident>)
    ensures TotalRevenue(a + b) == TotalRevenue(a) + TotalRevenue(b)
  {
    FilterAppend(a, b, Billable);
    SumCostsAppend(Filter(a, Billable), Filter(b, Billable));
  }

  /** One incident contributes its cost when billable, and nothing otherwise. */
  lemma RevenueOfOne(x: Incident)
    ensures TotalRevenue([x]) == if Billable(x) then x.cost.value else 0
  {
    assert [x][1..] == [];
    if Billable(x) {
      assert Filter([x], Billable) == [x];
      assert SumCosts([x]) == CostOrZero(x) + SumCosts([]);
    }
  }

  /** The revenue of three incidents is the sum of their own revenues. */
  lemma {:induction false} RevenueOfThree(a: Incident, b: Incident, c: Incident)
    ensures TotalRevenue([a, b, c]) == TotalRevenue([a]) + TotalRevenue([b]) + TotalRevenue([c])
  {
    assert [a, b, c] == [a] + [b, c] && [b, c] == [b] + [c];
    RevenueAppend([a], [b, c]);
    RevenueAppend([b], [c]);
  }

  /** Costs 100, none and 50 on three completed incidents give 150. */
  lemma {:induction false} RevenueExample(a: Incident, b: Incident, c: Incident)
    requires a.status == b.status == c.status == Some(Completed)
    requires a.cost == Some(100) && b.cost == None && c.cost == Some(50)
    ensures TotalRevenue([a, b, c]) == 150
  {
    RevenueOfThree(a, b, c);
    RevenueOfOne(a);
    RevenueOfOne(b);
    RevenueOfOne(c);
  }

  // ---------------------------------------------------------------------
  // Revenue over costs as the form stores them

  /** A JavaScript value a stored cost can hold: the seed data has numbers,
      the form's number input writes its text. */
  datatype JsValue = Num(n: nat) | Str(s: string)

  /** JavaScript truthiness of a cost: 0 and "" are falsy. */
  predicate Truthy(v: Option<JsValue>)
  {
    match v
    case None => false
    case Some(Num(n)) => n != 0
    case Some(Str(s)) => s != ""
  }

  function JsToString(v: JsValue): string
  {
    match v
    case Num(n) => Decimal(n)
    case Str(s) => s
  }

  /** JavaScript `+`: numeric addition of two numbers, otherwise the
      concatenation of both operands' string forms. */
  function JsAdd(a: JsValue, b: JsValue): (r: JsValue)
    ensures a.Num? && b.Num? ==> r == Num(a.n + b.n)
    ensures a.Str? || b.Str? ==> r == Str(JsToString(a) + JsToString(b))
  {
    if a.Num? && b.Num? then Num(a.n + b.n) else Str(JsToString(a) + JsToString(b))
  }

  /** An incident as stored, reduced to what the revenue reads. */
  datatype StoredCharge = StoredCharge(status: Option<Status>, cost: Option<JsValue>)

  function RevenueFold(acc: JsValue, s: seq<StoredCharge>): JsValue
    decreases |s|
  {
    if s == [] then acc
    else RevenueFold(JsAdd(acc, s[0].cost.GetOr(Num(0))), s[1..])
  }

  /** `i.status === 'Completed' && i.cost` on a stored charge. */
  predicate BillableCharge(c: StoredCharge)
  {
    c.status == Some(Completed) && Truthy(c.cost)
  }

  /** Once the running total is text, or a text cost is still to come, the
      reduction ends in text. */
  lemma {:induction false} RevenueFoldText(acc: JsValue, s: seq<StoredCharge>)
    requires acc.Str? || exists k :: 0 <= k < |s| && s[k].cost.Some? && s[k].cost.value.Str?
    ensures RevenueFold(acc, s).Str?
    decreases |s|
  {
    if s != [] {
      var next := JsAdd(acc, s[0].cost.GetOr(Num(0)));
      if !next.Str? {
        var k :| 0 <= k < |s| && s[k].cost.Some? && s[k].cost.value.Str?;
        assert k != 0;
        assert s[1..][k - 1] == s[k];
      }
      RevenueFoldText(next, s[1..]);
    }
  }

  /** One billable charge whose cost is text makes the reduction over the
      billable charges end in text. */
  lemma TypedBillableMakesText(s: seq<StoredCharge>, k: int)
    requires 0 <= k < |s| && BillableCharge(s[k]) && s[k].cost.value.Str?
    ensures RevenueFold(Num(0), Filter(s, BillableCharge)).Str?
  {
    var billed := Filter(s, BillableCharge);
    FilterMembers(s, BillableCharge);
    assert s[k] in billed;
    var m :| 0 <= m < |billed| && billed[m] == s[k];
    RevenueFoldText(Num(0), billed);
  }

  /** `totalRevenue` as written, over stored charges: zero (a number) with
      nothing billable, and text as soon as one billable cost is text. */
  function RevenueAsWritten(s: seq<StoredCharge>): (r: JsValue)
    ensures (forall k :: 0 <= k < |s| ==> !BillableCharge(s[k])) ==> r == Num(0)
    ensures forall k :: 0 <= k < |s| && BillableCharge(s[k]) && s[k].cost.value.Str? ==> r.Str?
  {
    var billed := Filter(s, BillableCharge);
    assert (forall k :: 0 <= k < |s| ==> !BillableCharge(s[k])) ==> billed == [] by {
      if forall k :: 0 <= k < |s| ==> !BillableCharge(s[k]) {
        FilterNone(s, BillableCharge);
      }
    }
    assert forall k :: 0 <= k < |s| && BillableCharge(s[k]) && s[k].cost.value.Str? ==> RevenueFold(Num(0), billed).Str? by {
      forall k | 0 <= k < |s| && BillableCharge(s[k]) && s[k].cost.value.Str?
        ensures RevenueFold(Num(0), billed).Str?
      {
        TypedBillableMakesText(s, k);
      }
    }
    RevenueFold(Num(0), billed)
  }

  function Charge(i: Incident): StoredCharge
  {
    StoredCharge(i.status, match i.cost case None => None case Some(n) => Some(Num(n)))
  }

  function Charges(s: seq<Incident>): (r: seq<StoredCharge>)
    ensures |r| == |s| && forall k :: 0 <= k < |s| ==> r[k] == Charge(s[k])
    decreases |s|
  {
    if s == [] then [] else [Charge(s[0])] + Charges(s[1..])
  }

  lemma {:induction false} RevenueFoldNumbers(acc: nat, s: seq<Incident>)
    ensures RevenueFold(Num(acc), Charges(s)) == Num(acc + SumCosts(s))
    decreases |s|
  {
    if s != [] {
      assert Charges(s)[1..] == Charges(s[1..]);
      RevenueFoldNumbers(acc + CostOrZero(s[0]), s[1..]);
    }
  }

  lemma ChargeBillable(x: Incident)
    ensures BillableCharge(Charge(x)) == Billable(x)
  {
  }

  lemma {:induction false} ChargesFilter(s: seq<Incident>)
    ensures Filter(Charges(s), BillableCharge) == Charges(Filter(s, Billable))
    decreases |s|
  {
    if s != [] {
      var cs := Charges(s);
      assert cs[1..] == Charges(s[1..]);
      ChargesFilter(s[1..]);
      ChargeBillable(s[0]);
      var rest := Filter(s[1..], Billable);
      assert Filter(cs, BillableCharge)
          == (if Billable(s[0]) then [Charge(s[0])] else []) + Filter(cs[1..], BillableCharge);
      if Billable(s[0]) {
        assert Filter(s, Billable) == [s[0]] + rest;
        assert ([s[0]] + rest)[1..] == rest;
        assert Charges([s[0]] + rest) == [Charge(s[0])] + Charges(rest);
      } else {
        assert Filter(s, Billable) == rest;
      }
    }
  }

  /** With numeric costs only, the reduction as written is the revenue. */
  lemma {:induction false} RevenueAsWrittenOnNumbers(incidents: seq<Incident>)
    ensures RevenueAsWritten(Charges(incidents)) == Num(TotalRevenue(incidents))
  {
    var billed := Filter(incidents, Billable);
    calc {
      RevenueAsWritten(Charges(incidents));
      RevenueFold(Num(0), Filter(Charges(incidents), BillableCharge));
      { ChargesFilter(incidents); }
      RevenueFold(Num(0), Charges(billed));
      { RevenueFoldNumbers(0, billed); }
      Num(SumCosts(billed));
      Num(TotalRevenue(incidents));
    }
  }

  /** The reduction over one charge that counts is one addition. */
  lemma RevenueOfOneCharge(a: StoredCharge)
    requires BillableCharge(a)
    ensures RevenueAsWritten([a]) == JsAdd(Num(0), a.cost.value)
  {
    assert Filter([a], BillableCharge) == [a] by {
      FilterKeepsAll([a], BillableCharge);
    }
    assert RevenueFold(Num(0), [a]) == RevenueFold(JsAdd(Num(0), a.cost.value), []) by {
      assert [a][1..] == [];
    }
  }

  /** The reduction over two charges that count is two additions, in order. */
  lemma RevenueOfTwoCharges(a: StoredCharge, b: StoredCharge)
    requires BillableCharge(a) && BillableCharge(b)
    ensures RevenueAsWritten([a, b]) == JsAdd(JsAdd(Num(0), a.cost.value), b.cost.value)
  {
    var x := JsAdd(Num(0), a.cost.value);
    assert Filter([a, b], BillableCharge) == [a, b] by {
      FilterKeepsAll([a, b], BillableCharge);
    }
    assert RevenueFold(Num(0), [a, b]) == RevenueFold(x, [b]) by {
      assert [a, b][1..] == [b];
    }
    assert RevenueFold(x, [b]) == RevenueFold(JsAdd(x, b.cost.value), []) by {
      assert [b][1..] == [];
    }
  }

  /** A cost typed into the form is stored as text, and the reduction then
      concatenates: one completed incident with cost "100" yields "0100"
      where 100 is meant. */
  lemma TypedCostConcatenates()
    ensures RevenueAsWritten([StoredCharge(Some(Completed), Some(Str("100")))]) == Str("0100")
  {
    RevenueOfOneCharge(StoredCharge(Some(Completed), Some(Str("100"))));
    assert Decimal(0) == "0";
    assert JsAdd(Num(0), Str("100")) == Str(Decimal(0) + "100");
    assert "0" + "100" == "0100";
  }

  /** A seeded cost of 100 followed by a typed cost "50" yields "10050"
      where 150 is meant. */
  lemma MixedCostsConcatenate()
    ensures RevenueAsWritten([StoredCharge(Some(Completed), Some(Num(100))),
                              StoredCharge(Some(Completed), Some(Str("50")))]) == Str("10050")
  {
    var seeded := StoredCharge(Some(Completed), Some(Num(100)));
    var typed := StoredCharge(Some(Completed), Some(Str("50")));
    calc {
      RevenueAsWritten([seeded, typed]);
      { RevenueOfTwoCharges(seeded, typed); }
      JsAdd(JsAdd(Num(0), Num(100)), Str("50"));
      JsAdd(Num(100), Str("50"));
      Str(Decimal(100) + "50");
      { DecimalHundred(); }
      Str("100" + "50");
      { assert "100" + "50" == "10050"; }
      Str("10050");
    }
  }

  lemma DecimalHundred()
    ensures Decimal(100) == "100"
  {
    assert Decimal(1) == "1";
    assert Decimal(10) == "10";
  }

  // ---------------------------------------------------------------------
  // The administrator's figures

  datatype Kpis = Kpis(totalPatients: nat, totalIncidents: nat, completedTreatments: nat,
                       pendingTreatments: nat, totalRevenue: nat)

  /** The four cards: `patients.length`, `incidents.length`, the numbers of
      completed and of scheduled incidents, and the revenue. */
  function ComputeKpis(patients: seq<Patient>, incidents: seq<Incident>): (k: Kpis)
    ensures k.totalPatients == |patients| && k.totalIncidents == |incidents|
    ensures k.completedTreatments == |Filter(incidents, IsCompleted)|
    ensures k.pendingTreatments == |Filter(incidents, IsScheduled)|
    ensures k.totalRevenue == TotalRevenue(incidents) == SumCosts(Filter(incidents, IsCompleted))
    ensures k.completedTreatments + k.pendingTreatments <= k.totalIncidents
    ensures k.completedTreatments == 0 <==> forall j :: 0 <= j < |incidents| ==> !IsCompleted(incidents[j])
    ensures k.pendingTreatments == 0 <==> forall j :: 0 <= j < |incidents| ==> !IsScheduled(incidents[j])
    ensures k.completedTreatments == 0 ==> k.totalRevenue == 0
  {
    CountDisjoint(incidents, IsCompleted, IsScheduled);
    CountIsFilterLength(incidents, IsCompleted);
    CountIsFilterLength(incidents, IsScheduled);
    RevenueIsCompletedCostSum(incidents);
    Kpis(|patients|, |incidents|, Count(incidents, IsCompleted), Count(incidents, IsScheduled),
         TotalRevenue(incidents))
  }

  /** Recording one more incident raises the incident total by one, the
      completed or pending figure by one when it has that status, and the
      revenue by its cost when it is completed with a non-zero cost. */
  lemma {:induction false} KpisAppend(patients: seq<Patient>, incidents: seq<Incident>, i: Incident)
    ensures var before, after := ComputeKpis(patients, incidents), ComputeKpis(patients, incidents + [i]);
            after.totalPatients == before.totalPatients
            && after.totalIncidents == before.totalIncidents + 1
            && after.completedTreatments == before.completedTreatments + (if IsCompleted(i) then 1 else 0)
            && after.pendingTreatments == before.pendingTreatments + (if IsScheduled(i) then 1 else 0)
            && after.totalRevenue == before.totalRevenue + (if Billable(i) then i.cost.value else 0)
  {
    assert |Filter(incidents + [i], IsCompleted)| == |Filter(incidents, IsCompleted)| + (if IsCompleted(i) then 1 else 0) by {
      FilterAppend(incidents, [i], IsCompleted);
      assert [i][1..] == [];
    }
    assert |Filter(incidents + [i], IsScheduled)| == |Filter(incidents, IsScheduled)| + (if IsScheduled(i) then 1 else 0) by {
      FilterAppend(incidents, [i], IsScheduled);
      assert [i][1..] == [];
    }
    assert TotalRevenue(incidents + [i]) == TotalRevenue(incidents) + (if Billable(i) then i.cost.value else 0) by {
      RevenueAppend(incidents, [i]);
      RevenueOfOne(i);
    }
  }

  // ---------------------------------------------------------------------
  // Next ten appointments

  const UpcomingLimit: nat := 10

  /** `upcomingAppointments`: the ten earliest appointments at or after `now`. */
  function UpcomingAppointments(incidents: seq<Incident>, now: int): (r: seq<Incident>)
    ensures |r| <= UpcomingLimit
    ensures var all := UpcomingSorted(incidents, now);
            |r| == (if |all| < UpcomingLimit then |all| else UpcomingLimit) && r == all[..|r|]
    ensures forall i :: multiset(r)[i] <= if IsUpcoming(i, now) then multiset(incidents)[i] else 0
    ensures forall k :: 0 <= k < |r| ==> r[k] in incidents && IsUpcoming(r[k], now)
    ensures forall j, k :: 0 <= j < k < |r| ==> r[j].appointmentDate <= r[k].appointmentDate
    ensures |r| < UpcomingLimit ==> forall i :: i in incidents && IsUpcoming(i, now) ==> i in r
  {
    UpcomingHeadBag(incidents, now);
    UpcomingHeadEntries(incidents, now);
    UpcomingHeadComplete(incidents, now);
    Take(UpcomingSorted(incidents, now), UpcomingLimit)
  }

  /** The head of the upcoming list holds each incident at most as often as
      the store does, and only upcoming ones. */
  lemma UpcomingHeadBag(incidents: seq<Incident>, now: int)
    ensures var r := Take(UpcomingSorted(incidents, now), UpcomingLimit);
            forall i :: multiset(r)[i] <= if IsUpcoming(i, now) then multiset(incidents)[i] else 0
  {
    var sorted := UpcomingSorted(incidents, now);
    assert multiset(Take(sorted, UpcomingLimit)) <= multiset(sorted);
  }

  /** Every entry of the head is an upcoming incident of the store, and the
      head is earliest first. */
  lemma UpcomingHeadEntries(incidents: seq<Incident>, now: int)
    ensures var r := Take(UpcomingSorted(incidents, now), UpcomingLimit);
            (forall k :: 0 <= k < |r| ==> r[k] in incidents && IsUpcoming(r[k], now))
            && (forall j, k :: 0 <= j < k < |r| ==> r[j].appointmentDate <= r[k].appointmentDate)
  {
    var sorted := UpcomingSorted(incidents, now);
    var r := Take(sorted, UpcomingLimit);
    forall k | 0 <= k < |r|
      ensures r[k] in incidents && IsUpcoming(r[k], now)
    {
      assert r[k] == sorted[k];
    }
    forall j, k | 0 <= j < k < |r|
      ensures r[j].appointmentDate <= r[k].appointmentDate
    {
      assert r[j] == sorted[j] && r[k] == sorted[k];
    }
  }

  /** A head shorter than ten is the whole upcoming list. */
  lemma UpcomingHeadComplete(incidents: seq<Incident>, now: int)
    ensures var r := Take(UpcomingSorted(incidents, now), UpcomingLimit);
            |r| < UpcomingLimit ==> forall i :: i in incidents && IsUpcoming(i, now) ==> i in r
  {
    var sorted := UpcomingSorted(incidents, now);
    var r := Take(sorted, UpcomingLimit);
    if |r| < UpcomingLimit {
      assert r == sorted;
      forall i | i in incidents && IsUpcoming(i, now)
        ensures i in sorted
      {
        UpcomingSortedMembers(incidents, now, i);
      }
    }
  }

  /** Nothing left off the list is earlier than anything on it. */
  lemma {:induction false} UpcomingAreEarliest(incidents: seq<Incident>, now: int, x: Incident)
    requires x in incidents && IsUpcoming(x, now)
    requires x !in UpcomingAppointments(incidents, now)
    ensures forall k :: 0 <= k < |UpcomingAppointments(incidents, now)| ==>
              UpcomingAppointments(incidents, now)[k].appointmentDate <= x.appointmentDate
  {
    var sorted := UpcomingSorted(incidents, now);
    UpcomingSortedMembers(incidents, now, x);
    assert SortedBy(sorted, DateKey);
    TakeOfSortedIsSmallest(sorted, DateKey, UpcomingLimit, x);
  }

  // ---------------------------------------------------------------------
  // Top five patients

  const TopLimit: nat := 5

  /** `{ ...patient, appointmentCount }`. */
  datatype PatientWithCount = PatientWithCount(patient: Patient, appointmentCount: nat)

  function WithCounts(patients: seq<Patient>, incidents: seq<Incident>): (r: seq<PatientWithCount>)
    ensures |r| == |patients|
    ensures forall k :: 0 <= k < |r| ==> r[k].patient == patients[k]
    ensures forall k :: 0 <= k < |r| ==> r[k].appointmentCount == AppointmentCount(incidents, r[k].patient.id)
  {
    seq(|patients|, k requires 0 <= k < |patients| =>
      PatientWithCount(patients[k], AppointmentCount(incidents, patients[k].id)))
  }

  /** Sorting ascending by this key sorts by count, most first. */
  function MostFirstKey(e: PatientWithCount): int { 0 - e.appointmentCount as int }

  /** Every patient with their count, most appointments first; patients
      with equal counts keep their store order (a stable sort). */
  function Ranked(patients: seq<Patient>, incidents: seq<Incident>): (r: seq<PatientWithCount>)
    ensures multiset(r) == multiset(WithCounts(patients, incidents))
    ensures |r| == |patients|
    ensures forall j, k :: 0 <= j < k < |r| ==> r[j].appointmentCount >= r[k].appointmentCount
    ensures forall k :: 0 <= k < |r| ==>
              r[k].patient in patients && r[k].appointmentCount == AppointmentCount(incidents, r[k].patient.id)
  {
    var all := WithCounts(patients, incidents);
    var counted := (e: PatientWithCount) =>
      e.patient in patients && e.appointmentCount == AppointmentCount(incidents, e.patient.id);
    SortByKeeps(all, MostFirstKey, counted);
    var r := SortBy(all, MostFirstKey);
    assert SortedBy(r, MostFirstKey);
    r
  }

  lemma {:induction false} RankedStable(patients: seq<Patient>, incidents: seq<Incident>, v: int)
    ensures KeyClass(Ranked(patients, incidents), MostFirstKey, v)
         == KeyClass(WithCounts(patients, incidents), MostFirstKey, v)
  {
    SortByStable(WithCounts(patients, incidents), MostFirstKey, v);
  }

  /** `patientAppointmentCounts`: the first five of the ranking. */
  function TopPatients(patients: seq<Patient>, incidents: seq<Incident>): (r: seq<PatientWithCount>)
    ensures |r| == if |patients| < TopLimit then |patients| else TopLimit
    ensures forall k :: 0 <= k < |r| ==> r[k] == Ranked(patients, incidents)[k]
  {
    Take(Ranked(patients, incidents), TopLimit)
  }

  /** A patient left out of the top five has no more appointments than any
      patient in it. */
  lemma {:induction false} TopPatientsAreTop(patients: seq<Patient>, incidents: seq<Incident>, p: Patient)
    requires p in patients
    requires forall k :: 0 <= k < |TopPatients(patients, incidents)| ==> TopPatients(patients, incidents)[k].patient != p
    ensures forall k :: 0 <= k < |TopPatients(patients, incidents)| ==>
              TopPatients(patients, incidents)[k].appointmentCount >= AppointmentCount(incidents, p.id)
  {
    var all := WithCounts(patients, incidents);
    var ranked := Ranked(patients, incidents);
    var e := PatientWithCount(p, AppointmentCount(incidents, p.id));
    var j :| 0 <= j < |patients| && patients[j] == p;
    assert all[j] == e;
    assert e in multiset(ranked);
    var top := Take(ranked, TopLimit);
    assert top == TopPatients(patients, incidents);
    assert forall k :: 0 <= k < |top| ==> top[k].patient != e.patient;
    assert e !in top;
    assert SortedBy(ranked, MostFirstKey);
    TakeOfSortedIsSmallest(ranked, MostFirstKey, TopLimit, e);
  }

  // ---------------------------------------------------------------------
  // The patient's home view

  const RecentLimit: nat := 5

  /** The patient dashboard's content. `upcoming` is the full sorted list;
      the page shows its first five. */
  datatype PatientHome = PatientHome(
    name: Option<string>,
    total: nat,
    completed: nat,
    upcoming: seq<Incident>,
    recent: seq<Incident>)

  /** `userPatient?.name`: an unlinked user, or a link to no patient, has no name. */
  function NameOf(patients: seq<Patient>, linked: Option<string>): (r: Option<string>)
    ensures linked.None? ==> r.None?
    ensures linked.Some? ==> (r.None? <==> forall k :: 0 <= k < |patients| ==> patients[k].id != linked.value)
    ensures linked.Some? ==> forall k :: FirstWithId(patients, linked.value, k) ==> r == Some(patients[k].name)
    ensures UniquePatientIds(patients) && linked.Some? ==>
              forall p :: p in patients && p.id == linked.value ==> r == Some(p.name)
  {
    match linked
    case None => None
    case Some(id) =>
      assert UniquePatientIds(patients) ==>
               forall p :: p in patients && p.id == id ==> FindPatient(patients, id) == Some(p) by {
        if UniquePatientIds(patients) {
          forall p | p in patients && p.id == id
            ensures FindPatient(patients, id) == Some(p)
          {
            FindPatientUnique(patients, p);
          }
        }
      }
      assert forall k :: FirstWithId(patients, id, k) ==> FindPatient(patients, id) == Some(patients[k]) by {
        forall k | FirstWithId(patients, id, k)
          ensures FindPatient(patients, id) == Some(patients[k])
        {
          FindPatientFirst(patients, id, k);
        }
      }
      match FindPatient(patients, id)
      case None => None
      case Some(p) => Some(p.name)
  }

  /** `userUpcoming`: the user's appointments at or after `now`, earliest first. */
  function UserUpcoming(incidents: seq<Incident>, linked: Option<string>, now: int): (r: seq<Incident>)
    ensures |r| <= |IncidentsOf(incidents, linked)|
    ensures forall i :: multiset(r)[i] == if BelongsTo(i, linked) && IsUpcoming(i, now) then multiset(incidents)[i] else 0
    ensures forall k :: 0 <= k < |r| ==> r[k] in incidents && BelongsTo(r[k], linked) && IsUpcoming(r[k], now)
    ensures forall j, k :: 0 <= j < k < |r| ==> r[j].appointmentDate <= r[k].appointmentDate
  {
    var mine := IncidentsOf(incidents, linked);
    UpcomingSorted(mine, now)
  }

  /** No upcoming appointment of the user is missing from the list. */
  lemma UserUpcomingComplete(incidents: seq<Incident>, linked: Option<string>, now: int, i: Incident)
    requires i in incidents && BelongsTo(i, linked) && IsUpcoming(i, now)
    ensures i in UserUpcoming(incidents, linked, now)
  {
    var mine := IncidentsOf(incidents, linked);
    UpcomingSortedMembers(mine, now, i);
  }

  /** The user's completed appointments, the first five of them in store order. */
  function RecentTreatments(incidents: seq<Incident>, linked: Option<string>): (r: seq<Incident>)
    ensures var n := Count(IncidentsOf(incidents, linked), IsCompleted);
            |r| == if n < RecentLimit then n else RecentLimit
    ensures forall k :: 0 <= k < |r| ==> r[k] in incidents && BelongsTo(r[k], linked) && IsCompleted(r[k])
  {
    var mine := IncidentsOf(incidents, linked);
    var done := Filter(mine, IsCompleted);
    FilterMembers(mine, IsCompleted);
    CountIsFilterLength(mine, IsCompleted);
    Take(done, RecentLimit)
  }

  /** The dashboard of a user linked (or not) to a patient record. */
  function PatientHomeView(patients: seq<Patient>, incidents: seq<Incident>, linked: Option<string>,
                           now: int): (h: PatientHome)
    ensures h.name == NameOf(patients, linked)
    ensures h.total == |IncidentsOf(incidents, linked)|
    ensures h.completed == |Filter(IncidentsOf(incidents, linked), IsCompleted)|
    ensures h.upcoming == UserUpcoming(incidents, linked, now)
    ensures h.recent == RecentTreatments(incidents, linked)
    ensures linked.Some? ==> h.total == AppointmentCount(incidents, linked.value)
    ensures linked.None? ==> h.total == 0 && h.upcoming == [] && h.recent == []
    ensures h.completed <= h.total && |h.upcoming| <= h.total
    ensures forall k :: 0 <= k < |h.upcoming| ==>
              h.upcoming[k] in incidents && BelongsTo(h.upcoming[k], linked) && IsUpcoming(h.upcoming[k], now)
    ensures forall j, k :: 0 <= j < k < |h.upcoming| ==> h.upcoming[j].appointmentDate <= h.upcoming[k].appointmentDate
    ensures |h.recent| == if h.completed < RecentLimit then h.completed else RecentLimit
    ensures forall k :: 0 <= k < |h.recent| ==>
              h.recent[k] in incidents && BelongsTo(h.recent[k], linked) && IsCompleted(h.recent[k])
  {
    var mine := IncidentsOf(incidents, linked);
    assert linked.Some? ==> |mine| == AppointmentCount(incidents, linked.value) by {
      if linked.Some? { AppointmentCountIsLength(incidents, linked.value); }
    }
    CountIsFilterLength(mine, IsCompleted);
    PatientHome(NameOf(patients, linked), |mine|, Count(mine, IsCompleted),
                UserUpcoming(incidents, linked, now), RecentTreatments(incidents, linked))
  }

  /** The recent treatments are the first five of the patient's completed
      incidents in store order, the same as one filter with both conditions. */
  lemma {:induction false} RecentIsFirstCompleted(incidents: seq<Incident>, linked: Option<string>)
    ensures RecentTreatments(incidents, linked)
         == Take(Filter(incidents, (i: Incident) => BelongsTo(i, linked) && IsCompleted(i)), RecentLimit)
  {
    var mine := (i: Incident) => BelongsTo(i, linked);
    var both := (i: Incident) => BelongsTo(i, linked) && IsCompleted(i);
    assert RecentTreatments(incidents, linked) == Take(Filter(Filter(incidents, mine), IsCompleted), RecentLimit);
    FilterFilter(incidents, mine, IsCompleted, both);
  }
}
