/** The appointment registry: patients with a visit history, and doctors
    with one slot per hour over `[start, end)`. Each slot is free (`None`)
    or holds the id of the patient booked into it. A slot's key is `str(t)`
    in the stored dictionary; since `str` is injective on integers
    (`Text.IntToStringInjective`), the model keys slots by the hour `t`. */
module Appointments {
  import opened Common
  import opened Text
  import opened Assoc

  /** One entry of a patient's `history`. */
  datatype Visit = Visit(doctor: string, time: int, medicine: string, date: string)

  datatype Patient = Patient(name: string, age: int, contact: string, history: seq<Visit>)

  /** Hour to the booked patient id, in insertion order. */
  type Slots = seq<(int, Option<string>)>

  datatype Doctor = Doctor(name: string, speciality: string, slots: Slots)

  /** The body `get_doctor_schedule` returns. */
  datatype Schedule = Schedule(
    doctorId: string, name: string, speciality: string,
    available: seq<int>, booked: seq<(int, string)>, total: nat)

  /** The `appointment` record `book_appointment` returns, with its message. */
  datatype Booking = Booking(
    message: string, doctorId: string, doctorName: string,
    patientId: string, patientName: string, time: string, status: string)

  /** The body `record_doctor_visit` returns. */
  datatype VisitReceipt = VisitReceipt(message: string, patient: string, doctor: string, medicine: string)

  /** `f"{t}:00"`. */
  function HourLabel(t: int): string
  {
    IntToString(t) + ":00"
  }

  // ------------------------------------------------------------------ ids

  /** `str(len(d) + 1)`: the id both `add_appointment_patient` and
      `add_doctor` give a new record. */
  function AsWrittenId<V(!new)>(m: seq<(string, V)>): (id: string)
    ensures AllDigits(id) && DigitsValue(id) == |m| + 1
  {
    NatToStringRoundTrip(|m| + 1);
    NatToString(|m| + 1)
  }

  /** After a deletion `str(len(d) + 1)` can be an id already in use, and
      the new record then overwrites the old one: with only record "2"
      left (record "1" deleted), the next id is "2" again. */
  lemma AsWrittenIdCollides()
    ensures var m := [("2", 7)];
      && Has(m, AsWrittenId(m))
      && Put(m, AsWrittenId(m), 8) == [("2", 8)]
  {
    var m := [("2", 7)];
    assert AsWrittenId(m) == "2";
    IndexOfIs(m, "2", 0);
  }

  /** The largest decimal value among the all-digit keys, 0 if there is none. */
  function MaxId<V(!new)>(m: seq<(string, V)>): (r: nat)
    ensures forall i :: 0 <= i < |m| && AllDigits(m[i].0) ==> DigitsValue(m[i].0) <= r
  {
    if |m| == 0 then 0
    else
      var rest := MaxId(m[..|m| - 1]);
      var k := m[|m| - 1].0;
      assert forall i :: 0 <= i < |m| - 1 ==> m[..|m| - 1][i] == m[i];
      if AllDigits(k) && DigitsValue(k) > rest then DigitsValue(k) else rest
  }

  /** The id a new record gets: one more than the largest id in use, so it
      is never the key of an existing record. */
  function NextId<V(!new)>(m: seq<(string, V)>): (id: string)
    ensures !Has(m, id)
  {
    var n := MaxId(m) + 1;
    NatToStringRoundTrip(n);
    assert forall i :: 0 <= i < |m| ==> m[i].0 != NatToString(n) by {
      forall i | 0 <= i < |m| ensures m[i].0 != NatToString(n) {
        if AllDigits(m[i].0) {
          assert DigitsValue(m[i].0) <= MaxId(m);
        }
      }
    }
    NatToString(n)
  }

  /** While ids are exactly "1", "2", … in order (nothing was ever deleted),
      the corrected id is the one `str(len(d) + 1)` gives. */
  lemma {:induction false} NextIdAgrees<V(!new)>(m: seq<(string, V)>)
    requires forall i :: 0 <= i < |m| ==> m[i].0 == NatToString(i + 1)
    ensures MaxId(m) == |m|
    ensures NextId(m) == AsWrittenId(m)
  {
    if |m| > 0 {
      var p := m[..|m| - 1];
      assert forall i :: 0 <= i < |p| ==> p[i] == m[i];
      NextIdAgrees(p);
      NatToStringRoundTrip(|m|);
    }
  }

  // ---------------------------------------------------------------- slots

  /** Keys in strictly increasing order (which implies they are distinct). */
  predicate Ascending(s: Slots)
  {
    forall i, j :: 0 <= i < j < |s| ==> s[i].0 < s[j].0
  }

  /** `{str(t): None for t in range(start, end)}`. */
  function FreeSlots(start: int, end: int): (r: Slots)
    ensures |r| == if start < end then end - start else 0
    ensures Ascending(r) && UniqueKeys(r)
    ensures forall t :: Has(r, t) <==> start <= t < end
    ensures forall i :: 0 <= i < |r| ==> r[i].1 == None
  {
    if start < end then
      var r := seq(end - start, i requires 0 <= i < end - start => (start + i, None));
      forall t | start <= t < end ensures Has(r, t) {
        assert r[t - start].0 == t;
      }
      r
    else []
  }

  /** With distinct keys, an entry is in the slots exactly when its hour maps
      to its value. */
  lemma InSlots(s: Slots, t: int, v: Option<string>)
    requires UniqueKeys(s)
    ensures (t, v) in s <==> Has(s, t) && Get(s, t) == v
  {
    if (t, v) in s {
      var i :| 0 <= i < |s| && s[i] == (t, v);
      GetAt(s, i);
    }
  }

  /** Booking a free slot and then recording the visit leaves the slots as
      they were. */
  lemma BookThenVisitRestores(s: Slots, t: int, patient: string)
    requires Has(s, t) && Get(s, t) == None
    ensures Put(Put(s, t, Some(patient)), t, None) == s
  {
    PutPut(s, t, Some(patient), None);
    PutGet(s, t);
  }

  /** Writing into an existing hour keeps the hours in order. */
  lemma PutKeepsAscending(s: Slots, t: int, v: Option<string>)
    requires Ascending(s) && Has(s, t)
    ensures Ascending(Put(s, t, v)) && |Put(s, t, v)| == |s|
  {
    var r := Put(s, t, v);
    forall i, j | 0 <= i < j < |r| ensures r[i].0 < r[j].0 {
      assert r[i].0 == s[i].0 && r[j].0 == s[j].0;
    }
  }

  // ------------------------------------------------------------- schedule

  /** `[int(t) for t, pid in slots.items() if pid is None]`. */
  function FreeTimes(s: Slots): (r: seq<int>)
    ensures |r| <= |s|
    ensures forall t :: t in r <==> (t, None) in s
  {
    if |s| == 0 then []
    else
      assert forall e :: e in s <==> e == s[0] || e in s[1..];
      (if s[0].1.None? then [s[0].0] else []) + FreeTimes(s[1..])
  }

  /** `{int(t): pid for t, pid in slots.items() if pid is not None}`. */
  function BookedSlots(s: Slots): (r: seq<(int, string)>)
    ensures |r| <= |s|
    ensures forall e :: e in r <==> (e.0, Some(e.1)) in s
  {
    if |s| == 0 then []
    else
      assert forall e :: e in s <==> e == s[0] || e in s[1..];
      (if s[0].1.Some? then [(s[0].0, s[0].1.value)] else []) + BookedSlots(s[1..])
  }

  /** Every slot is either available or booked. */
  lemma {:induction false} FreePlusBooked(s: Slots)
    ensures |FreeTimes(s)| + |BookedSlots(s)| == |s|
  {
    if |s| > 0 {
      FreePlusBooked(s[1..]);
    }
  }

  predicate Sorted(s: seq<int>)
  {
    forall i, j :: 0 <= i < j < |s| ==> s[i] <= s[j]
  }

  function Insert(x: int, s: seq<int>): (r: seq<int>)
    requires Sorted(s)
    ensures Sorted(r) && multiset(r) == multiset(s) + multiset{x}
  {
    if |s| == 0 || x <= s[0] then [x] + s
    else
      var t := Insert(x, s[1..]);
      assert s == [s[0]] + s[1..];
      forall j | 0 <= j < |t| ensures s[0] <= t[j] {
        assert t[j] in multiset(t);
        if t[j] != x {
          assert t[j] in multiset(s[1..]);
        }
      }
      [s[0]] + t
  }

  /** `sorted(xs)`. */
  function SortInts(s: seq<int>): (r: seq<int>)
    ensures Sorted(r) && multiset(r) == multiset(s)
  {
    if |s| == 0 then []
    else
      assert s == [s[0]] + s[1..];
      Insert(s[0], SortInts(s[1..]))
  }

  /** The schedule of one doctor: the free hours in ascending order, the
      booked hours with their patients, and the number of slots. */
  function ScheduleOf(id: string, d: Doctor): (r: Schedule)
    requires UniqueKeys(d.slots)
    ensures r.doctorId == id && r.name == d.name && r.speciality == d.speciality
    ensures Sorted(r.available)
    ensures forall t :: t in r.available <==> Has(d.slots, t) && Get(d.slots, t) == None
    ensures forall t, p :: (t, p) in r.booked <==> Has(d.slots, t) && Get(d.slots, t) == Some(p)
    ensures |r.available| + |r.booked| == r.total == |d.slots|
  {
    var free := FreeTimes(d.slots);
    var r := Schedule(id, d.name, d.speciality, SortInts(free), BookedSlots(d.slots), |d.slots|);
    forall t ensures t in r.available <==> Has(d.slots, t) && Get(d.slots, t) == None {
      assert t in r.available <==> t in multiset(free);
      InSlots(d.slots, t, None);
    }
    forall t, p ensures (t, p) in r.booked <==> Has(d.slots, t) && Get(d.slots, t) == Some(p) {
      InSlots(d.slots, t, Some(p));
    }
    assert |r.available| == |multiset(free)| == |free|;
    FreePlusBooked(d.slots);
    r
  }

  // ------------------------------------------------------------- registry

  class Registry {
    /** `patients.json`: patient id to record, in insertion order. */
    var patients: seq<(string, Patient)>
    /** `doctors.json`: doctor id to record, in insertion order. */
    var doctors: seq<(string, Doctor)>

    ghost predicate Valid()
      reads this
    {
      && UniqueKeys(patients)
      && UniqueKeys(doctors)
      && (forall i :: 0 <= i < |doctors| ==> Ascending(doctors[i].1.slots))
    }

    constructor ()
      ensures Valid() && patients == [] && doctors == []
    {
      patients, doctors := [], [];
    }

    /** Storing a doctor whose hours are in order keeps the registry valid. */
    lemma PutDoctorValid(id: string, d: Doctor)
      requires Valid() && Ascending(d.slots)
      ensures UniqueKeys(Put(doctors, id, d))
      ensures forall i :: 0 <= i < |Put(doctors, id, d)| ==> Ascending(Put(doctors, id, d)[i].1.slots)
    {
      var r := Put(doctors, id, d);
      forall i | 0 <= i < |r| ensures Ascending(r[i].1.slots) {
        GetAt(r, i);
        if r[i].0 != id {
          var j := IndexOf(doctors, r[i].0);
        }
      }
    }

    /** The slots of a stored doctor are in order, hence keyed uniquely. */
    lemma StoredDoctor(id: string)
      requires Valid() && Has(doctors, id)
      ensures Ascending(Get(doctors, id).slots) && UniqueKeys(Get(doctors, id).slots)
    {
      var j := IndexOf(doctors, id);
    }

    /** `add_appointment_patient`, with the corrected id: the new patient is
        appended with an empty history under an id not in use. */
    method AddPatient(name: string, age: int, contact: string) returns (id: string)
      requires Valid()
      modifies this`patients
      ensures Valid()
      ensures id == NextId(old(patients)) && !Has(old(patients), id)
      ensures patients == old(patients) + [(id, Patient(name, age, contact, []))]
    {
      id := NextId(patients);
      patients := Put(patients, id, Patient(name, age, contact, []));
    }

    /** `get_patient_history`. */
    function PatientHistory(id: string): (r: Result<(string, seq<Visit>)>)
      reads this
      ensures r.Err? <==> !Has(patients, id)
      ensures r.Err? ==> r == Err(NotFound, "Patient not found")
      ensures r.Ok? ==> r.value == (Get(patients, id).name, Get(patients, id).history)
    {
      if Has(patients, id) then Ok((Get(patients, id).name, Get(patients, id).history))
      else Err(NotFound, "Patient not found")
    }

    /** `add_doctor`, with the corrected id: 400 unless `start < end`;
        otherwise the doctor is appended with `end - start` free slots
        keyed `start .. end - 1`. */
    method AddDoctor(name: string, speciality: string, start: int, end: int) returns (r: Result<string>)
      requires Valid()
      modifies this`doctors
      ensures Valid()
      ensures start >= end ==> r == Err(BadRequest, "End time must be after start time") && doctors == old(doctors)
      ensures start < end ==>
        && r == Ok(NextId(old(doctors)))
        && !Has(old(doctors), r.value)
        && doctors == old(doctors) + [(r.value, Doctor(name, speciality, FreeSlots(start, end)))]
    {
      if start >= end {
        return Err(BadRequest, "End time must be after start time");
      }
      var id := NextId(doctors);
      var d := Doctor(name, speciality, FreeSlots(start, end));
      PutDoctorValid(id, d);
      doctors := Put(doctors, id, d);
      r := Ok(id);
    }

    /** `get_doctor_schedule`. */
    function GetDoctorSchedule(id: string): (r: Result<Schedule>)
      requires Valid()
      reads this
      ensures r.Err? <==> !Has(doctors, id)
      ensures r.Err? ==> r == Err(NotFound, "Doctor not found")
      ensures r.Ok? ==> UniqueKeys(Get(doctors, id).slots) && r.value == ScheduleOf(id, Get(doctors, id))
    {
      if Has(doctors, id) then
        StoredDoctor(id);
        Ok(ScheduleOf(id, Get(doctors, id)))
      else Err(NotFound, "Doctor not found")
    }

    /** `book_appointment`: fails, changing nothing, on an unknown doctor, an
        unknown patient, an hour the doctor has no slot for, or a booked
        slot, in that order; otherwise books that one slot for the patient. */
    method Book(doctorId: string, patientId: string, time: int) returns (r: Result<Booking>)
      requires Valid()
      modifies this`doctors
      ensures Valid()
      ensures r.Err? ==> doctors == old(doctors)
      ensures !Has(old(doctors), doctorId) ==> r == Err(NotFound, "Doctor not found")
      ensures Has(old(doctors), doctorId) && !Has(patients, patientId) ==> r == Err(NotFound, "Patient not found")
      ensures Has(old(doctors), doctorId) && Has(patients, patientId) ==>
        var d := Get(old(doctors), doctorId);
        && (!Has(d.slots, time) ==>
              r == Err(BadRequest, "Time slot " + HourLabel(time) + " not available for this doctor"))
        && (Has(d.slots, time) && Get(d.slots, time).Some? ==>
              r == Err(BadRequest, "Slot " + HourLabel(time) + " already booked"))
        && (Has(d.slots, time) && Get(d.slots, time).None? ==>
              && doctors == Put(old(doctors), doctorId, d.(slots := Put(d.slots, time, Some(patientId))))
              && r == Ok(Booking(
                   "Appointment booked successfully with " + d.name + " at " + HourLabel(time),
                   doctorId, d.name, patientId, Get(patients, patientId).name, HourLabel(time), "Confirmed")))
    {
      if !Has(doctors, doctorId) {
        return Err(NotFound, "Doctor not found");
      }
      if !Has(patients, patientId) {
        return Err(NotFound, "Patient not found");
      }
      var d := Get(doctors, doctorId);
      if !Has(d.slots, time) {
        return Err(BadRequest, "Time slot " + HourLabel(time) + " not available for this doctor");
      }
      if Get(d.slots, time).Some? {
        return Err(BadRequest, "Slot " + HourLabel(time) + " already booked");
      }
      StoredDoctor(doctorId);
      PutKeepsAscending(d.slots, time, Some(patientId));
      var booked := d.(slots := Put(d.slots, time, Some(patientId)));
      PutDoctorValid(doctorId, booked);
      doctors := Put(doctors, doctorId, booked);
      r := Ok(Booking(
        "Appointment booked successfully with " + d.name + " at " + HourLabel(time),
        doctorId, d.name, patientId, Get(patients, patientId).name, HourLabel(time), "Confirmed"));
    }

    /** `record_doctor_visit`, dated `today`: fails, changing nothing, on an
        unknown doctor, an hour with no slot, a free slot, or a booked patient
        no longer registered, in that order; otherwise appends one visit to
        the booked patient's history and frees the slot. */
    method RecordVisit(doctorId: string, time: int, medicine: string, today: string)
      returns (r: Result<VisitReceipt>)
      requires Valid()
      modifies this
      ensures Valid()
      ensures r.Err? ==> patients == old(patients) && doctors == old(doctors)
      ensures !Has(old(doctors), doctorId) ==> r == Err(NotFound, "Doctor not found")
      ensures Has(old(doctors), doctorId) ==>
        var d := Get(old(doctors), doctorId);
        && (!Has(d.slots, time) ==> r == Err(BadRequest, "Invalid time slot"))
        && (Has(d.slots, time) && Get(d.slots, time).None? ==>
              r == Err(BadRequest, "No appointment at this time slot"))
        && (Has(d.slots, time) && Get(d.slots, time).Some? && !Has(old(patients), Get(d.slots, time).value) ==>
              r == Err(NotFound, "Patient not found"))
        && (Has(d.slots, time) && Get(d.slots, time).Some? && Has(old(patients), Get(d.slots, time).value) ==>
              var pid := Get(d.slots, time).value;
              var p := Get(old(patients), pid);
              && patients == Put(old(patients), pid,
                   p.(history := p.history + [Visit(d.name, time, medicine, today)]))
              && doctors == Put(old(doctors), doctorId, d.(slots := Put(d.slots, time, None)))
              && r == Ok(VisitReceipt("Doctor visit recorded successfully", p.name, d.name, medicine)))
    {
      if !Has(doctors, doctorId) {
        return Err(NotFound, "Doctor not found");
      }
      var d := Get(doctors, doctorId);
      if !Has(d.slots, time) {
        return Err(BadRequest, "Invalid time slot");
      }
      var booked := Get(d.slots, time);
      if booked.None? {
        return Err(BadRequest, "No appointment at this time slot");
      }
      var pid := booked.value;
      if !Has(patients, pid) {
        return Err(NotFound, "Patient not found");
      }
      var p := Get(patients, pid);
      patients := Put(patients, pid, p.(history := p.history + [Visit(d.name, time, medicine, today)]));
      StoredDoctor(doctorId);
      PutKeepsAscending(d.slots, time, None);
      var freed := d.(slots := Put(d.slots, time, None));
      PutDoctorValid(doctorId, freed);
      doctors := Put(doctors, doctorId, freed);
      r := Ok(VisitReceipt("Doctor visit recorded successfully", p.name, d.name, medicine));
    }

    /** `delete_patient`: 404 for an unknown id; otherwise removes exactly
        that patient. Slots booked for the patient keep the id. */
    method DeletePatient(id: string) returns (r: Result<string>)
      requires Valid()
      modifies this`patients
      ensures Valid()
      ensures !Has(old(patients), id) ==> r == Err(NotFound, "Patient not found") && patients == old(patients)
      ensures Has(old(patients), id) ==>
        && r == Ok("Patient " + Get(old(patients), id).name + " deleted successfully")
        && patients == Delete(old(patients), id)
        && !Has(patients, id)
    {
      if !Has(patients, id) {
        return Err(NotFound, "Patient not found");
      }
      var name := Get(patients, id).name;
      patients := Delete(patients, id);
      r := Ok("Patient " + name + " deleted successfully");
    }

    /** `delete_doctor`: 404 for an unknown id; otherwise removes exactly
        that doctor with all its slots. */
    method DeleteDoctor(id: string) returns (r: Result<string>)
      requires Valid()
      modifies this`doctors
      ensures Valid()
      ensures !Has(old(doctors), id) ==> r == Err(NotFound, "Doctor not found") && doctors == old(doctors)
      ensures Has(old(doctors), id) ==>
        && r == Ok("Doctor " + Get(old(doctors), id).name + " deleted successfully")
        && doctors == Delete(old(doctors), id)
        && !Has(doctors, id)
    {
      if !Has(doctors, id) {
        return Err(NotFound, "Doctor not found");
      }
      var name := Get(doctors, id).name;
      var before := doctors;
      doctors := Delete(doctors, id);
      var i := IndexOf(before, id);
      forall j | 0 <= j < |doctors| ensures Ascending(doctors[j].1.slots) {
        assert doctors[j] == before[if j < i then j else j + 1];
      }
      r := Ok("Doctor " + name + " deleted successfully");
    }
  }
}
