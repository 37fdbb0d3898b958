/** The emergency triage desk: a symptom table, a heap of waiting patients
    keyed by `(priority, arrival)`, an arrival counter and the two side
    tables `patient_start_times` and `patient_doctors`, keyed by arrival. */
module Triage {
  import opened Common
  import opened Text
  import opened Assoc
  import opened Heap

  // ------------------------------------------------------------ the tables

  /** `severity_map`: symptom to priority, 1 (critical) to 4 (normal). */
  const SeverityTable: seq<(string, int)> := [
    ("heart attack", 1), ("stroke", 1), ("breathing difficulty", 1), ("severe accident", 1),
    ("cardiac arrest", 1), ("unconscious", 1), ("severe bleeding", 1), ("seizure", 1),
    ("anaphylaxis", 1), ("burns (severe)", 1),
    ("fracture", 2), ("high fever", 2), ("severe pain", 2), ("severe infection", 2),
    ("chest pain", 2), ("deep wound", 2), ("dehydration", 2), ("burns (moderate)", 2),
    ("food poisoning", 3), ("minor injury", 3), ("asthma", 3), ("vomiting", 3),
    ("diarrhea", 3), ("sprain", 3), ("skin rash", 3), ("ear pain", 3), ("burns (mild)", 3),
    ("headache", 4), ("cold", 4), ("cough", 4), ("sore throat", 4), ("toothache", 4),
    ("allergy (mild)", 4), ("body ache", 4), ("fatigue", 4), ("insomnia", 4)
  ]

  /** The table has 36 symptoms and every priority is one of the four levels. */
  lemma SeverityLevels()
    ensures |SeverityTable| == 36
    ensures forall i :: 0 <= i < |SeverityTable| ==> 1 <= SeverityTable[i].1 <= 4
  {
  }

  /** `symptom.lower().strip()`: the lower-cased symptom with only the
      whitespace at either end cut off. */
  function Normalise(symptom: string): (r: string)
    ensures exists i, j ::
              && 0 <= i <= j <= |symptom| && r == Lower(symptom)[i..j]
              && (forall k :: 0 <= k < i ==> IsSpace(Lower(symptom)[k]))
              && (forall k :: j <= k < |symptom| ==> IsSpace(Lower(symptom)[k]))
    ensures |r| <= |symptom|
    ensures forall i :: 0 <= i < |r| ==> !IsUpper(r[i])
    ensures |r| > 0 ==> !IsSpace(r[0]) && !IsSpace(r[|r| - 1])
  {
    Strip(Lower(symptom))
  }

  /** `doctors`. */
  const Doctors: seq<string> := [
    "Dr. Smith", "Dr. Johnson", "Dr. Williams", "Dr. Davis", "Dr. Miller",
    "Dr. Anderson", "Dr. Thomas", "Dr. Garcia", "Dr. Martinez", "Dr. Rodriguez"
  ]

  /** `get_severity_label`: anything outside 1..3 reads as "Normal". */
  function SeverityLabel(priority: int): (r: string)
    ensures r in {"Critical", "Serious", "Moderate", "Normal"}
  {
    if priority == 1 then "Critical"
    else if priority == 2 then "Serious"
    else if priority == 3 then "Moderate"
    else "Normal"
  }

  /** The level a label names. */
  function LabelLevel(severity: string): int
  {
    if severity == "Critical" then 1
    else if severity == "Serious" then 2
    else if severity == "Moderate" then 3
    else 4
  }

  /** On the four levels the label is faithful: reading it back gives the
      priority, so distinct levels never share a label. */
  lemma SeverityLabelRoundTrip(priority: int)
    ensures 1 <= priority <= 4 ==> LabelLevel(SeverityLabel(priority)) == priority
    ensures priority < 1 || priority > 4 ==> SeverityLabel(priority) == SeverityLabel(4)
  {
  }

  /** The position in `doctors` that `assign_doctor` picks, reading the
      arrival counter after it was bumped. */
  function DoctorIndex(priority: int, counter: int): (i: nat)
    ensures i < |Doctors|
  {
    if priority == 1 then 0
    else if priority == 2 then 1 + counter % 3
    else if priority == 3 then 4 + counter % 3
    else 7 + counter % 3
  }

  /** `assign_doctor`. */
  function AssignDoctor(priority: int, counter: int): string
  {
    Doctors[DoctorIndex(priority, counter)]
  }

  /** The arrival counter advances the rotation by one. */
  lemma ModThreeStep(c: int)
    ensures (c + 1) % 3 == (if c % 3 == 2 then 0 else c % 3 + 1)
  {
    var q, k := c / 3, c % 3;
    assert c == 3 * q + k;
    if k == 2 {
      assert c + 1 == 3 * (q + 1);
    } else {
      assert c + 1 == 3 * q + (k + 1);
    }
  }

  /** Critical patients always get the first doctor; each other level has a
      band of three doctors, which three consecutive arrivals at that level
      cover once each, and the rotation repeats every three arrivals. */
  lemma AssignDoctorRotates(priority: int, counter: int)
    ensures priority == 1 ==> DoctorIndex(priority, counter) == 0
    ensures priority == 2 ==> 1 <= DoctorIndex(priority, counter) <= 3
    ensures priority == 3 ==> 4 <= DoctorIndex(priority, counter) <= 6
    ensures priority != 1 && priority != 2 && priority != 3 ==> 7 <= DoctorIndex(priority, counter) <= 9
    ensures priority != 1 ==>
      {DoctorIndex(priority, counter), DoctorIndex(priority, counter + 1), DoctorIndex(priority, counter + 2)}
      == if priority == 2 then {1, 2, 3} else if priority == 3 then {4, 5, 6} else {7, 8, 9}
    ensures DoctorIndex(priority, counter + 3) == DoctorIndex(priority, counter)
  {
    ModThreeStep(counter);
    ModThreeStep(counter + 1);
    ModThreeStep(counter + 2);
  }

  /** `format_time_ago` split into the number it shows and its unit. */
  function TimeAgo(elapsed: int): (r: (int, string))
    ensures r.1 == "sec" <==> elapsed < 60
    ensures r.1 == "sec" ==> r.0 == elapsed
    ensures r.1 == "min" <==> 60 <= elapsed < 3600
    ensures r.1 == "min" ==> 1 <= r.0 < 60 && r.0 * 60 <= elapsed < r.0 * 60 + 60
    ensures r.1 == "hr" <==> 3600 <= elapsed
    ensures r.1 == "hr" ==> 1 <= r.0 && r.0 * 3600 <= elapsed < r.0 * 3600 + 3600
  {
    if elapsed < 60 then (elapsed, "sec")
    else if elapsed < 3600 then (elapsed / 60, "min")
    else (elapsed / 3600, "hr")
  }

  /** `format_time_ago`, given the whole seconds elapsed. */
  function FormatTimeAgo(elapsed: int): string
  {
    var (n, unit) := TimeAgo(elapsed);
    IntToString(n) + " " + unit + " ago"
  }

  // ------------------------------------------------------------- the queue

  /** The arrival numbers present in a queue. */
  function Arrivals(q: multiset<Entry>): set<int>
  {
    set e | e in q :: e.arrival
  }

  /** No arrival number occurs twice, so tuples never tie. */
  ghost predicate DistinctArrivals(q: multiset<Entry>)
  {
    && (forall e :: q[e] <= 1)
    && (forall e1, e2 :: e1 in q && e2 in q && e1.arrival == e2.arrival ==> e1 == e2)
  }

  /** Adding an entry with the next arrival number keeps arrivals distinct
      and in range, and adds exactly that number. */
  lemma AdmitFresh(q: multiset<Entry>, e: Entry, counter: int)
    requires DistinctArrivals(q) && e.arrival == counter + 1 && counter >= 0
    requires forall x :: x in q ==> 1 <= x.arrival <= counter
    ensures DistinctArrivals(q + multiset{e})
    ensures forall x :: x in q + multiset{e} ==> 1 <= x.arrival <= counter + 1
    ensures Arrivals(q + multiset{e}) == Arrivals(q) + {e.arrival}
    ensures e.arrival !in Arrivals(q)
  {
    assert forall x :: x in q + multiset{e} <==> x in q || x == e;
  }

  /** Removing one entry keeps arrivals distinct and removes exactly its number. */
  lemma DischargeOne(q: multiset<Entry>, rest: multiset<Entry>, e: Entry)
    requires DistinctArrivals(q) && rest + multiset{e} == q
    ensures DistinctArrivals(rest)
    ensures forall x :: x in rest ==> x in q
    ensures Arrivals(rest) == Arrivals(q) - {e.arrival}
  {
    forall x | x in rest ensures x != e {
      assert q[x] == rest[x] + (if x == e then 1 else 0);
    }
    forall x | x in q && x != e ensures x in rest {
      assert q[x] == rest[x];
    }
  }

  /** What `add_patient` reports. */
  datatype Admission = Admission(name: string, age: int, severity: string, condition: string,
                                 doctor: string, queuePosition: int)

  /** What `treat_patient` reports. */
  datatype Treatment = Treatment(name: string, severity: string, doctor: string, remaining: int)

  /** What `get_stats` reports. */
  datatype Stats = Stats(critical: nat, serious: nat, moderate: nat, normal: nat)

  /** How many queued entries carry each label. */
  function CountLabel(q: seq<Entry>, severity: string): nat
  {
    if |q| == 0 then 0
    else CountLabel(q[..|q| - 1], severity) + (if SeverityLabel(q[|q| - 1].priority) == severity then 1 else 0)
  }

  /** Every entry has exactly one of the four labels. */
  lemma {:induction false} CountLabelsSum(q: seq<Entry>)
    ensures CountLabel(q, "Critical") + CountLabel(q, "Serious") + CountLabel(q, "Moderate")
            + CountLabel(q, "Normal") == |q|
  {
    if |q| > 0 {
      CountLabelsSum(q[..|q| - 1]);
    }
  }

  /** One row of `get_patients`. */
  datatype Row = Row(id: int, name: string, age: int, severity: string, symptom: string,
                     waitTime: string, doctor: string, queuePosition: int)

  /** Ordered by `(priority, arrival)`. */
  predicate SortedEntries(q: seq<Entry>)
  {
    forall i, j :: 0 <= i < j < |q| ==> Le(q[i], q[j])
  }

  function Insert(e: Entry, q: seq<Entry>): (r: seq<Entry>)
    requires SortedEntries(q)
    ensures SortedEntries(r) && |r| == |q| + 1
    ensures multiset(r) == multiset(q) + multiset{e}
  {
    if |q| == 0 then [e]
    else if Le(e, q[0]) then [e] + q
    else
      var rest := Insert(e, q[1..]);
      assert forall j :: 0 <= j < |rest| ==> Le(q[0], rest[j]) by {
        forall j | 0 <= j < |rest|
          ensures Le(q[0], rest[j])
        {
          assert rest[j] in multiset(rest);
          if rest[j] != e {
            assert rest[j] in q[1..];
          }
        }
      }
      assert q == [q[0]] + q[1..];
      [q[0]] + rest
  }

  /** `sorted(patient_queue)`. */
  function Sorted(q: seq<Entry>): (r: seq<Entry>)
    ensures SortedEntries(r) && |r| == |q|
    ensures multiset(r) == multiset(q)
  {
    if |q| == 0 then []
    else
      assert q == q[..|q| - 1] + [q[|q| - 1]];
      Insert(q[|q| - 1], Sorted(q[..|q| - 1]))
  }

  /** `r` is the row `get_patients` shows for entry `e` at `position`: the
      arrival as id, the patient's name and age, the severity label, the
      title-cased symptom, the time since admission (none elapsed when no
      admission time is recorded) and the assigned doctor, or "Unassigned". */
  predicate Describes(r: Row, e: Entry, position: int, startTimes: seq<(int, int)>,
                      doctors: seq<(int, string)>, now: int)
  {
    && r.id == e.arrival
    && r.name == e.patient.name
    && r.age == e.patient.age
    && r.severity == SeverityLabel(e.priority)
    && r.symptom == Title(e.patient.symptom)
    && (Has(startTimes, e.arrival) ==> r.waitTime == FormatTimeAgo(now - Get(startTimes, e.arrival)))
    && (!Has(startTimes, e.arrival) ==> r.waitTime == FormatTimeAgo(0))
    && (Has(doctors, e.arrival) ==> r.doctor == Get(doctors, e.arrival))
    && (!Has(doctors, e.arrival) ==> r.doctor == "Unassigned")
    && r.queuePosition == position
  }

  /** One row of `get_patients`, with the defaults the endpoint uses for an
      arrival missing from a side table. */
  function RowOf(e: Entry, position: int, startTimes: seq<(int, int)>, doctors: seq<(int, string)>, now: int): (r: Row)
    ensures Describes(r, e, position, startTimes, doctors, now)
  {
    var start := if Has(startTimes, e.arrival) then Get(startTimes, e.arrival) else now;
    Row(e.arrival, e.patient.name, e.patient.age, SeverityLabel(e.priority), Title(e.patient.symptom),
        FormatTimeAgo(now - start),
        if Has(doctors, e.arrival) then Get(doctors, e.arrival) else "Unassigned", position)
  }

  /** The rows of an already ordered queue, numbered from `from`. */
  function Listing(s: seq<Entry>, from: int, startTimes: seq<(int, int)>, doctors: seq<(int, string)>, now: int): (r: seq<Row>)
    ensures |r| == |s|
    ensures forall k :: 0 <= k < |r| ==> r[k] == RowOf(s[k], from + k, startTimes, doctors, now)
    decreases |s|
  {
    if |s| == 0 then []
    else [RowOf(s[0], from, startTimes, doctors, now)] + Listing(s[1..], from + 1, startTimes, doctors, now)
  }

  /** `get_patients`: one row per queued patient, in treatment order,
      numbered from 1. */
  function Rows(q: seq<Entry>, startTimes: seq<(int, int)>, doctors: seq<(int, string)>, now: int): (r: seq<Row>)
    ensures |r| == |q|
    ensures forall k :: 0 <= k < |r| ==> Describes(r[k], Sorted(q)[k], k + 1, startTimes, doctors, now)
    ensures SortedEntries(Sorted(q)) && multiset(Sorted(q)) == multiset(q)
  {
    Listing(Sorted(q), 1, startTimes, doctors, now)
  }

  /** Every queued patient appears exactly as often in the listing's order. */
  lemma RowsArePermutation(q: seq<Entry>)
    ensures multiset(Sorted(q)) == multiset(q)
  {
  }

  class TriageDesk {
    /** `patient_queue`. */
    var queue: seq<Entry>
    /** `arrival_counter[0]`. */
    var counter: int
    /** `patient_start_times`: arrival to the time it was admitted. */
    var startTimes: seq<(int, int)>
    /** `patient_doctors`: arrival to the assigned doctor. */
    var doctors: seq<(int, string)>

    /** The queue is a heap of distinct arrivals numbered 1..counter, and
        both side tables hold exactly the queued arrivals. */
    ghost predicate Valid()
      reads this
    {
      && IsHeap(queue) && counter >= 0
      && DistinctArrivals(multiset(queue))
      && (forall e :: e in multiset(queue) ==> 1 <= e.arrival <= counter)
      && UniqueKeys(startTimes) && UniqueKeys(doctors)
      && (forall a :: Has(startTimes, a) <==> a in Arrivals(multiset(queue)))
      && (forall a :: Has(doctors, a) <==> a in Arrivals(multiset(queue)))
    }

    constructor ()
      ensures Valid() && queue == [] && counter == 0 && startTimes == [] && doctors == []
    {
      queue, counter, startTimes, doctors := [], 0, [], [];
    }

    /** `add_patient`: an unknown symptom is rejected with nothing changed;
        otherwise the counter is bumped, the new arrival is timed, given a
        doctor and pushed with its priority. */
    method AddPatient(name: string, age: int, symptom: string, now: int) returns (r: Result<Admission>)
      requires Valid()
      modifies this
      ensures Valid()
      ensures !Has(SeverityTable, Normalise(symptom)) ==>
        && r == Err(BadRequest, "Unknown symptom '" + symptom + "'. Please select a valid symptom.")
        && unchanged(this)
      ensures Has(SeverityTable, Normalise(symptom)) ==>
        var priority := Get(SeverityTable, Normalise(symptom));
        var e := Entry(priority, old(counter) + 1, Patient(name, age, Normalise(symptom)));
        && counter == old(counter) + 1
        && multiset(queue) == multiset(old(queue)) + multiset{e}
        && startTimes == old(startTimes) + [(counter, now)]
        && doctors == old(doctors) + [(counter, AssignDoctor(priority, counter))]
        && r == Ok(Admission(name, age, SeverityLabel(priority), Title(Normalise(symptom)),
                             AssignDoctor(priority, counter), |queue|))
    {
      var key := Normalise(symptom);
      if !Has(SeverityTable, key) {
        return Err(BadRequest, "Unknown symptom '" + symptom + "'. Please select a valid symptom.");
      }
      var priority := Get(SeverityTable, key);
      var doctor := Admit(priority, Patient(name, age, key), now);
      r := Ok(Admission(name, age, SeverityLabel(priority), Title(key), doctor, |queue|));
    }

    /** The state change of a successful `add_patient`: the next arrival
        number is timed, given its doctor and pushed. */
    method Admit(priority: int, patient: Patient, now: int) returns (doctor: string)
      requires Valid()
      modifies this
      ensures Valid()
      ensures counter == old(counter) + 1
      ensures multiset(queue) == multiset(old(queue)) + multiset{Entry(priority, counter, patient)}
      ensures doctor == AssignDoctor(priority, counter)
      ensures startTimes == old(startTimes) + [(counter, now)]
      ensures doctors == old(doctors) + [(counter, doctor)]
    {
      counter := counter + 1;
      var e := Entry(priority, counter, patient);
      AdmitFresh(multiset(queue), e, counter - 1);
      startTimes := Put(startTimes, counter, now);
      doctor := AssignDoctor(priority, counter);
      doctors := Put(doctors, counter, doctor);
      queue := Push(queue, e);
    }

    /** `treat_patient`: 400 on an empty queue; otherwise the least
        `(priority, arrival)` leaves the queue and both side tables. */
    method TreatPatient() returns (r: Result<Treatment>)
      requires Valid()
      modifies this
      ensures Valid()
      ensures old(queue) == [] ==> r == Err(BadRequest, "No patients in queue") && unchanged(this)
      ensures old(queue) != [] ==>
        var e := old(queue)[0];
        && (forall x :: x in old(queue) ==> Le(e, x))
        && multiset(queue) + multiset{e} == multiset(old(queue))
        && counter == old(counter)
        && startTimes == Delete(old(startTimes), e.arrival)
        && doctors == Delete(old(doctors), e.arrival)
        && r == Ok(Treatment(e.patient.name, SeverityLabel(e.priority), Get(old(doctors), e.arrival), |queue|))
    {
      if |queue| == 0 {
        return Err(BadRequest, "No patients in queue");
      }
      forall x | x in queue ensures Le(queue[0], x) {
        var i :| 0 <= i < |queue| && queue[i] == x;
        RootIsLeast(queue, i);
      }
      var e, rest := Pop(queue);
      DischargeOne(multiset(queue), multiset(rest), e);
      assert e.arrival in Arrivals(multiset(queue));
      var doctor := if Has(doctors, e.arrival) then Get(doctors, e.arrival) else "Unknown";
      startTimes := Delete(startTimes, e.arrival);
      doctors := Delete(doctors, e.arrival);
      queue := rest;
      r := Ok(Treatment(e.patient.name, SeverityLabel(e.priority), doctor, |queue|));
    }

    /** `get_stats`: one pass over the queue, counting each label. */
    method GetStats() returns (s: Stats)
      ensures s.critical == CountLabel(queue, "Critical") && s.serious == CountLabel(queue, "Serious")
      ensures s.moderate == CountLabel(queue, "Moderate") && s.normal == CountLabel(queue, "Normal")
      ensures s.critical + s.serious + s.moderate + s.normal == |queue|
    {
      s := Stats(0, 0, 0, 0);
      var i := 0;
      while i < |queue|
        invariant 0 <= i <= |queue|
        invariant s.critical == CountLabel(queue[..i], "Critical") && s.serious == CountLabel(queue[..i], "Serious")
        invariant s.moderate == CountLabel(queue[..i], "Moderate") && s.normal == CountLabel(queue[..i], "Normal")
      {
        assert queue[..i + 1][..i] == queue[..i];
        match SeverityLabel(queue[i].priority) {
          case "Critical" => s := s.(critical := s.critical + 1);
          case "Serious" => s := s.(serious := s.serious + 1);
          case "Moderate" => s := s.(moderate := s.moderate + 1);
          case _ => s := s.(normal := s.normal + 1);
        }
        i := i + 1;
      }
      assert queue[..i] == queue;
      CountLabelsSum(queue);
    }

    /** `get_patients`. */
    function Patients(now: int): (r: seq<Row>)
      reads this
      ensures |r| == |queue|
      ensures forall k :: 0 <= k < |r| ==> Describes(r[k], Sorted(queue)[k], k + 1, startTimes, doctors, now)
    {
      Rows(queue, startTimes, doctors, now)
    }

    /** `clear_emergency_queue`: everything is emptied and numbering restarts. */
    method ClearQueue() returns (cleared: int)
      modifies this
      ensures Valid()
      ensures cleared == |old(queue)|
      ensures queue == [] && startTimes == [] && doctors == [] && counter == 0
    {
      cleared := |queue|;
      queue, startTimes, doctors, counter := [], [], [], 0;
    }
  }
}
