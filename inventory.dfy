/** The pharmacy store of backend/unified_api.py: medicines, each a stock count
    and an ordered dictionary of serial units, and the billing ledger of
    patients. Billing sells the unexpired unit with the earliest expiry
    (first in dictionary order on a tie) and purges every expired unit on the
    way. */
module Inventory {
  import opened Common
  import opened Assoc

  // ------------------------------------------------------------ data model

  /** `datetime` resolution: an expiry day starts at `day * MicrosPerDay`. */
  const MicrosPerDay: int := 86_400_000_000

  /** One serial unit: the day its expiry string parses to (`None` when
      `strptime(expiry, "%Y-%m-%d")` would raise) and its price. */
  datatype Serial = Serial(expiry: Option<int>, price: real)

  /** A medicine record: the stored `stock` and the serials in insertion order. */
  datatype Medicine = Medicine(stock: int, serials: seq<(string, Serial)>)

  /** One line of a patient's purchase history (its timestamp is not modelled). */
  datatype Purchase = Purchase(medicine: string, serial: string, price: real)

  /** A patient's billing entry. */
  datatype Account = Account(purchases: seq<Purchase>, frequency: seq<(string, nat)>, totalPrice: real)

  /** What dispensing reports: the unit sold, its price, the stock left and
      how many expired units were purged. */
  datatype Sale = Sale(serial: string, price: real, remaining: int, expiredRemoved: nat)

  /** What a successful bill reports. */
  datatype Receipt = Receipt(
    patient: string, medicine: string, serialSold: string, pricePaid: real,
    totalPrice: real, remainingStock: int, expiredRemoved: nat)

  /** `stock` is the number of serials, and no serial appears twice. */
  predicate WellFormed(m: Medicine)
  {
    UniqueKeys(m.serials) && m.stock == |m.serials|
  }

  const NoMedicine := Medicine(0, [])
  const NewAccount := Account([], [], 0.0)

  // ---------------------------------------------------------------- expiry

  /** `expiry_date < datetime.now()`, with `now` in microseconds since the
      epoch the day numbers count from: the expiry day's midnight is before now. */
  predicate Expired(day: int, now: int)
  {
    day * MicrosPerDay < now
  }

  /** A unit whose date parses and has passed: billing purges it. */
  predicate IsExpiredUnit(s: Serial, now: int)
  {
    s.expiry.Some? && Expired(s.expiry.value, now)
  }

  /** A unit billing may sell. */
  predicate Sellable(s: Serial, now: int)
  {
    s.expiry.Some? && !Expired(s.expiry.value, now)
  }

  /** A unit dated today counts as expired at any moment after midnight. */
  lemma DatedTodayIsExpired(day: int, now: int)
    requires day * MicrosPerDay < now < (day + 1) * MicrosPerDay
    ensures Expired(day, now) && !Expired(day + 1, now)
  {
  }

  predicate AllParse(serials: seq<(string, Serial)>)
  {
    forall i :: 0 <= i < |serials| ==> serials[i].1.expiry.Some?
  }

  /** Keys of the expired units, in dictionary order. */
  function ExpiredKeys(serials: seq<(string, Serial)>, now: int): (ks: seq<string>)
    ensures |ks| <= |serials|
  {
    if |serials| == 0 then []
    else
      var head := if IsExpiredUnit(serials[0].1, now) then [serials[0].0] else [];
      head + ExpiredKeys(serials[1..], now)
  }

  lemma {:induction false} ExpiredKeysAreKeys(serials: seq<(string, Serial)>, now: int)
    ensures forall k :: k in ExpiredKeys(serials, now) ==> Has(serials, k)
  {
    if |serials| > 0 {
      ExpiredKeysAreKeys(serials[1..], now);
      forall k | k in ExpiredKeys(serials[1..], now) ensures Has(serials, k) {
        HasTail(serials, k);
      }
    }
  }

  lemma {:induction false} ExpiredKeysAppend(a: seq<(string, Serial)>, b: seq<(string, Serial)>, now: int)
    ensures ExpiredKeys(a + b, now) == ExpiredKeys(a, now) + ExpiredKeys(b, now)
  {
    if |a| == 0 {
      assert a + b == b;
    } else {
      assert (a + b)[0] == a[0];
      assert (a + b)[1..] == a[1..] + b;
      ExpiredKeysAppend(a[1..], b, now);
    }
  }

  /** The set of keys a list holds. */
  function Elems(ks: seq<string>): set<string>
  {
    set k | k in ks
  }

  lemma ElemsSnoc(ks: seq<string>, k: string)
    ensures Elems(ks + [k]) == Elems(ks) + {k}
  {
  }

  /** The units left after the purge: exactly the sellable ones, in order. */
  function SellableOnly(serials: seq<(string, Serial)>, now: int): (r: seq<(string, Serial)>)
    ensures |r| <= |serials|
    ensures forall e :: e in r <==> e in serials && Sellable(e.1, now)
  {
    if |serials| == 0 then []
    else
      var head := if Sellable(serials[0].1, now) then [serials[0]] else [];
      head + SellableOnly(serials[1..], now)
  }

  /** With no sellable unit, the purge empties the record. */
  lemma {:induction false} NothingSellable(serials: seq<(string, Serial)>, now: int)
    requires forall j :: 0 <= j < |serials| ==> !Sellable(serials[j].1, now)
    ensures SellableOnly(serials, now) == []
  {
    if |serials| > 0 {
      NothingSellable(serials[1..], now);
    }
  }

  /** Every parsed unit is either purged or kept: the purge removes as many
      units as it lists. */
  lemma {:induction false} PurgeCount(serials: seq<(string, Serial)>, now: int)
    requires AllParse(serials)
    ensures |SellableOnly(serials, now)| + |ExpiredKeys(serials, now)| == |serials|
  {
    if |serials| > 0 {
      assert AllParse(serials[1..]);
      PurgeCount(serials[1..], now);
    }
  }

  /** Deleting the listed expired keys leaves exactly the sellable units. */
  lemma {:induction false} PurgeLeavesSellable(serials: seq<(string, Serial)>, now: int)
    requires UniqueKeys(serials) && AllParse(serials)
    ensures Without(serials, Elems(ExpiredKeys(serials, now))) == SellableOnly(serials, now)
  {
    if |serials| > 0 {
      var e, t := serials[0], serials[1..];
      assert UniqueKeys(t) && AllParse(t);
      PurgeLeavesSellable(t, now);
      var kt := Elems(ExpiredKeys(t, now));
      assert !Has(t, e.0) by {
        forall j | 0 <= j < |t| ensures t[j].0 != e.0 { assert t[j] == serials[j + 1]; }
      }
      ExpiredKeysAreKeys(t, now);
      assert e.0 !in kt;
      if IsExpiredUnit(e.1, now) {
        assert Elems(ExpiredKeys(serials, now)) == kt + {e.0};
        WithoutAbsent(t, kt, e.0);
      } else {
        assert Elems(ExpiredKeys(serials, now)) == kt;
      }
    }
  }

  // ------------------------------------------------------------- FIFO scan

  /** Index `c` is the unit billing sells: sellable, with an expiry no later
      than any other sellable unit, and strictly earlier than every sellable
      unit before it in dictionary order (the strict `<` keeps the first of
      a tie). */
  predicate IsFifoChoice(serials: seq<(string, Serial)>, now: int, c: nat)
  {
    && c < |serials|
    && Sellable(serials[c].1, now)
    && (forall j :: 0 <= j < |serials| && Sellable(serials[j].1, now) ==>
          serials[c].1.expiry.value <= serials[j].1.expiry.value)
    && (forall j :: 0 <= j < c && Sellable(serials[j].1, now) ==>
          serials[c].1.expiry.value < serials[j].1.expiry.value)
  }

  /** At most one index is the FIFO choice. */
  lemma FifoChoiceUnique(serials: seq<(string, Serial)>, now: int, c: nat, d: nat)
    requires IsFifoChoice(serials, now, c) && IsFifoChoice(serials, now, d)
    ensures c == d
  {
  }

  /** A reference definition of the unit billing sells, read from the front:
      the first unit wins unless a later sellable unit expires strictly
      earlier. */
  function FifoIndex(serials: seq<(string, Serial)>, now: int): (r: Option<nat>)
    ensures r.None? <==> forall j :: 0 <= j < |serials| ==> !Sellable(serials[j].1, now)
    ensures r.Some? ==> IsFifoChoice(serials, now, r.value)
  {
    if |serials| == 0 then None
    else
      var t := serials[1..];
      var rest := FifoIndex(t, now);
      assert forall j :: 1 <= j < |serials| ==> serials[j] == t[j - 1];
      if Sellable(serials[0].1, now) && (rest.None? || serials[0].1.expiry.value <= t[rest.value].1.expiry.value)
      then Some(0)
      else if rest.None? then None
      else Some(rest.value + 1)
  }

  /** What the single pass over the serials finds. */
  datatype Scan = Scan(chosen: Option<nat>, expired: seq<string>)

  /** The loop of `bill_patient_pharmacy` over `serials.items()`: collects the
      expired keys and tracks the earliest sellable unit. A date that does not
      parse aborts the request. */
  method ScanSerials(serials: seq<(string, Serial)>, now: int) returns (r: Result<Scan>)
    ensures r.Err? <==> !AllParse(serials)
    ensures r.Err? ==> r.status == ServerError
    ensures r.Ok? ==> r.value.expired == ExpiredKeys(serials, now)
    ensures r.Ok? ==> (r.value.chosen.None? <==> forall j :: 0 <= j < |serials| ==> !Sellable(serials[j].1, now))
    ensures r.Ok? && r.value.chosen.Some? ==> IsFifoChoice(serials, now, r.value.chosen.value)
    ensures r.Ok? ==> r.value.chosen == FifoIndex(serials, now)
  {
    var chosen: Option<nat> := None;
    var expired: seq<string> := [];
    var i := 0;
    while i < |serials|
      invariant 0 <= i <= |serials|
      invariant AllParse(serials[..i])
      invariant expired == ExpiredKeys(serials[..i], now)
      invariant chosen.None? <==> forall j :: 0 <= j < i ==> !Sellable(serials[j].1, now)
      invariant chosen.Some? ==> IsFifoChoice(serials[..i], now, chosen.value)
    {
      var key, unit := serials[i].0, serials[i].1;
      assert serials[..i + 1] == serials[..i] + [serials[i]];
      ExpiredKeysAppend(serials[..i], [serials[i]], now);
      match unit.expiry {
        case None =>
          return Err(ServerError, "Internal Server Error");
        case Some(day) =>
          if Expired(day, now) {
            expired := expired + [key];
          } else if chosen.None? || day < serials[chosen.value].1.expiry.value {
            chosen := Some(i);
          }
      }
      i := i + 1;
    }
    assert serials[..i] == serials;
    if chosen.Some? {
      FifoChoiceUnique(serials, now, chosen.value, FifoIndex(serials, now).value);
    }
    r := Ok(Scan(chosen, expired));
  }

  /** `for expired in expired_serials: del serials[expired]`. */
  method DeleteKeys(serials: seq<(string, Serial)>, keys: seq<string>) returns (r: seq<(string, Serial)>)
    requires UniqueKeys(serials)
    ensures r == Without(serials, Elems(keys))
  {
    r := serials;
    WithoutNothing(serials);
    assert Elems(keys[..0]) == {};
    var i := 0;
    while i < |keys|
      invariant 0 <= i <= |keys|
      invariant r == Without(serials, Elems(keys[..i]))
    {
      DeleteWithout(serials, Elems(keys[..i]), keys[i]);
      assert keys[..i + 1] == keys[..i] + [keys[i]];
      ElemsSnoc(keys[..i], keys[i]);
      r := Delete(r, keys[i]);
      i := i + 1;
    }
    assert keys[..i] == keys;
  }

  lemma {:induction false} WithoutNothing(m: seq<(string, Serial)>)
    ensures Without(m, {}) == m
  {
    if |m| > 0 {
      WithoutNothing(m[1..]);
      assert m == [m[0]] + m[1..];
    }
  }

  /** The FIFO choice is never a unit that billing purges, and no unit that
      survives the purge expires before it. */
  lemma FifoChoiceSurvivesPurge(serials: seq<(string, Serial)>, now: int, c: nat)
    requires IsFifoChoice(serials, now, c)
    ensures serials[c] in SellableOnly(serials, now)
    ensures forall e :: e in SellableOnly(serials, now) ==>
      serials[c].1.expiry.value <= e.1.expiry.value
  {
    forall e | e in SellableOnly(serials, now)
      ensures serials[c].1.expiry.value <= e.1.expiry.value
    {
      var j :| 0 <= j < |serials| && serials[j] == e;
    }
  }

  /** The result of a purge-and-sell over one medicine's serials. */
  datatype Outcome = Outcome(sold: Option<(string, real)>, left: seq<(string, Serial)>, expiredRemoved: nat)

  /** The body of `bill_patient_pharmacy` between the stock check and the
      ledger: scan, delete the expired keys, then delete the FIFO unit if
      there is one. What is left is the sellable units minus the one sold. */
  method SellFifo(serials: seq<(string, Serial)>, now: int) returns (r: Result<Outcome>)
    requires UniqueKeys(serials)
    ensures r.Err? <==> !AllParse(serials)
    ensures r.Err? ==> r.status == ServerError
    ensures r.Ok? ==> UniqueKeys(r.value.left)
    ensures r.Ok? ==>
      var left := SellableOnly(serials, now);
      var c := FifoIndex(serials, now);
      && r.value.expiredRemoved == |ExpiredKeys(serials, now)|
      && (c.None? ==> r.value.sold.None? && r.value.left == [])
      && (c.Some? ==>
            && r.value.sold == Some((serials[c.value].0, serials[c.value].1.price))
            && Has(left, serials[c.value].0)
            && r.value.left == Delete(left, serials[c.value].0)
            && |r.value.left| == |left| - 1)
  {
    var scan := ScanSerials(serials, now);
    if scan.Err? {
      return Err(scan.status, scan.detail);
    }
    var rest := DeleteKeys(serials, scan.value.expired);
    PurgeLeavesSellable(serials, now);
    PurgeCount(serials, now);
    UniqueWithout(serials, Elems(scan.value.expired));
    assert rest == SellableOnly(serials, now);
    if scan.value.chosen.None? {
      NothingSellable(serials, now);
      return Ok(Outcome(None, rest, |scan.value.expired|));
    }
    var c := scan.value.chosen.value;
    FifoChoiceSurvivesPurge(serials, now, c);
    assert Has(rest, serials[c].0) by {
      var j :| 0 <= j < |rest| && rest[j] == serials[c];
    }
    r := Ok(Outcome(Some((serials[c].0, serials[c].1.price)), Delete(rest, serials[c].0), |scan.value.expired|));
  }

  /** What dispensing answers for a medicine in stock whose dates all
      parse: the FIFO unit, with the stock left after the purge and the sale
      and the number of expired units purged; or 400 when no unit is
      sellable. */
  function SaleFrom(serials: seq<(string, Serial)>, medicine: string, now: int): (r: Result<Sale>)
    ensures r.Err? <==> forall j :: 0 <= j < |serials| ==> !Sellable(serials[j].1, now)
    ensures r.Err? ==> r == Err(BadRequest, "No non-expired " + medicine + " available")
    ensures r.Ok? ==> exists c: nat ::
      IsFifoChoice(serials, now, c) && r.value.serial == serials[c].0 && r.value.price == serials[c].1.price
    ensures r.Ok? ==> r.value.remaining == |SellableOnly(serials, now)| - 1
    ensures r.Ok? ==> r.value.expiredRemoved == |ExpiredKeys(serials, now)|
  {
    match FifoIndex(serials, now)
    case None => Err(BadRequest, "No non-expired " + medicine + " available")
    case Some(c) =>
      Ok(Sale(serials[c].0, serials[c].1.price, |SellableOnly(serials, now)| - 1, |ExpiredKeys(serials, now)|))
  }

  // ------------------------------------------------------------- ledger

  /** `frequency.get(medicine, 0)`. */
  function Count(freq: seq<(string, nat)>, medicine: string): nat
  {
    if Has(freq, medicine) then Get(freq, medicine) else 0
  }

  /** How many purchases in a history are of `medicine`. */
  function Purchases(ps: seq<Purchase>, medicine: string): nat
  {
    if |ps| == 0 then 0
    else Purchases(ps[..|ps| - 1], medicine) + (if ps[|ps| - 1].medicine == medicine then 1 else 0)
  }

  function SumPrices(ps: seq<Purchase>): real
  {
    if |ps| == 0 then 0.0 else SumPrices(ps[..|ps| - 1]) + ps[|ps| - 1].price
  }

  /** A ledger entry agrees with its own history: each frequency is the number
      of purchases of that medicine and the total is the sum of the prices. */
  ghost predicate Consistent(a: Account)
  {
    && UniqueKeys(a.frequency)
    && (forall m :: Count(a.frequency, m) == Purchases(a.purchases, m))
    && a.totalPrice == SumPrices(a.purchases)
  }

  /** Recording one purchase: append it, bump the medicine's frequency and
      add the price to the total. */
  function Charge(a: Account, p: Purchase): (r: Account)
    ensures r.purchases == a.purchases + [p]
    ensures Count(r.frequency, p.medicine) == Count(a.frequency, p.medicine) + 1
    ensures forall m :: m != p.medicine ==> Count(r.frequency, m) == Count(a.frequency, m)
    ensures r.totalPrice == a.totalPrice + p.price
    ensures UniqueKeys(a.frequency) ==> UniqueKeys(r.frequency)
  {
    Account(a.purchases + [p],
            Put(a.frequency, p.medicine, Count(a.frequency, p.medicine) + 1),
            a.totalPrice + p.price)
  }

  /** Charging keeps a ledger entry consistent with its history. */
  lemma ChargeKeepsConsistent(a: Account, p: Purchase)
    requires Consistent(a)
    ensures Consistent(Charge(a, p))
  {
    var r := Charge(a, p);
    assert r.purchases[..|r.purchases| - 1] == a.purchases;
    forall m ensures Count(r.frequency, m) == Purchases(r.purchases, m) {
    }
  }

  lemma NewAccountConsistent()
    ensures Consistent(NewAccount)
  {
  }

  // ------------------------------------------------------ read-only queries

  /** `search_medicine`: the record, or 404. */
  function SearchMedicine(medicines: seq<(string, Medicine)>, name: string): (r: Result<Medicine>)
    ensures r.Ok? <==> Has(medicines, name)
    ensures r.Err? ==> r.status == NotFound && r.detail == "Medicine not found"
    ensures r.Ok? ==> r.value == Get(medicines, name)
  {
    if Has(medicines, name) then Ok(Get(medicines, name)) else Err(NotFound, "Medicine not found")
  }

  datatype MedicineView = MedicineView(name: string, stock: int, serials: seq<(string, Serial)>)

  /** `get_all_medicines`: one entry per medicine, in insertion order; the
      listing is a field-for-field copy of each record. */
  function AllMedicines(medicines: seq<(string, Medicine)>): (r: seq<MedicineView>)
    ensures |r| == |medicines|
    ensures forall i :: 0 <= i < |r| ==>
      r[i] == MedicineView(medicines[i].0, medicines[i].1.stock, medicines[i].1.serials)
  {
    seq(|medicines|, i requires 0 <= i < |medicines| =>
      MedicineView(medicines[i].0, medicines[i].1.stock, medicines[i].1.serials))
  }

  datatype PatientView = PatientView(
    name: string, totalPurchases: nat, totalPrice: real,
    frequency: seq<(string, nat)>, purchases: seq<Purchase>)

  /** `get_billing_patients`: one entry per patient, in insertion order. */
  function BillingPatients(patients: seq<(string, Account)>): (r: seq<PatientView>)
    ensures |r| == |patients|
    ensures forall i :: 0 <= i < |r| ==>
      r[i].name == patients[i].0 && r[i].totalPurchases == |patients[i].1.purchases|
      && r[i].purchases == patients[i].1.purchases && r[i].frequency == patients[i].1.frequency
      && r[i].totalPrice == patients[i].1.totalPrice
  {
    seq(|patients|, i requires 0 <= i < |patients| =>
      var a := patients[i].1;
      PatientView(patients[i].0, |a.purchases|, a.totalPrice, a.frequency, a.purchases))
  }

  /** In a consistent ledger the listing's counts agree with each history. */
  lemma BillingPatientsAgree(patients: seq<(string, Account)>, i: nat, m: string)
    requires i < |patients| && Consistent(patients[i].1)
    ensures Count(BillingPatients(patients)[i].frequency, m) == Purchases(BillingPatients(patients)[i].purchases, m)
    ensures BillingPatients(patients)[i].totalPrice == SumPrices(BillingPatients(patients)[i].purchases)
  {
  }

  // ------------------------------------------------------------- the store

  class Pharmacy {
    /** `medicine.json`: medicine name to record, in insertion order. */
    var medicines: seq<(string, Medicine)>
    /** `patient.json`: patient name to billing entry, in insertion order. */
    var patients: seq<(string, Account)>

    ghost predicate Valid()
      reads this
    {
      && UniqueKeys(medicines)
      && (forall i :: 0 <= i < |medicines| ==> WellFormed(medicines[i].1))
      && UniqueKeys(patients)
      && (forall i :: 0 <= i < |patients| ==> Consistent(patients[i].1))
    }

    constructor ()
      ensures Valid() && medicines == [] && patients == []
    {
      medicines, patients := [], [];
    }

    /** The record for `name`, or the empty one `add_medicine_serial` creates. */
    function RecordOf(name: string): Medicine
      reads this`medicines
    {
      if Has(medicines, name) then Get(medicines, name) else NoMedicine
    }

    lemma RecordWellFormed(name: string)
      requires Valid()
      ensures WellFormed(RecordOf(name))
    {
      if Has(medicines, name) { var i := IndexOf(medicines, name); }
    }

    /** Storing a well-formed record under `name` keeps the store valid. */
    lemma PutRecordValid(name: string, m: Medicine)
      requires Valid() && WellFormed(m)
      ensures UniqueKeys(Put(medicines, name, m))
      ensures forall i :: 0 <= i < |Put(medicines, name, m)| ==> WellFormed(Put(medicines, name, m)[i].1)
    {
      var r := Put(medicines, name, m);
      forall i | 0 <= i < |r| ensures WellFormed(r[i].1) {
        GetAt(r, i);
        if r[i].0 != name {
          var j := IndexOf(medicines, r[i].0);
        }
      }
    }

    /** `add_medicine_serial`: creates the record if absent, stores the unit
        under its serial (overwriting a unit already there, which then does
        not raise the stock) and sets `stock` to the number of serials. */
    method AddMedicineSerial(name: string, serial: string, expiry: Option<int>, price: real)
      returns (stock: int)
      requires Valid()
      modifies this
      ensures Valid()
      ensures medicines == Put(old(medicines), name,
        Medicine(stock, Put(old(RecordOf(name)).serials, serial, Serial(expiry, price))))
      ensures stock == |Put(old(RecordOf(name)).serials, serial, Serial(expiry, price))|
      ensures stock == old(RecordOf(name)).stock + (if Has(old(RecordOf(name)).serials, serial) then 0 else 1)
      ensures patients == old(patients)
    {
      RecordWellFormed(name);
      var record := RecordOf(name);
      var serials := Put(record.serials, serial, Serial(expiry, price));
      stock := |serials|;
      PutRecordValid(name, Medicine(stock, serials));
      medicines := Put(medicines, name, Medicine(stock, serials));
    }

    /** `remove_medicine_serial`: 404 for an unknown medicine or serial;
        otherwise deletes exactly that unit and keeps the record, even at
        zero stock. */
    method RemoveMedicineSerial(name: string, serial: string) returns (r: Result<int>)
      requires Valid()
      modifies this
      ensures Valid()
      ensures !Has(old(medicines), name) ==>
        r == Err(NotFound, "Medicine not found") && medicines == old(medicines)
      ensures Has(old(medicines), name) && !Has(old(RecordOf(name)).serials, serial) ==>
        r == Err(NotFound, "Serial not found") && medicines == old(medicines)
      ensures Has(old(medicines), name) && Has(old(RecordOf(name)).serials, serial) ==>
        && r == Ok(old(RecordOf(name)).stock - 1)
        && medicines == Put(old(medicines), name,
             Medicine(r.value, Delete(old(RecordOf(name)).serials, serial)))
      ensures patients == old(patients)
    {
      if !Has(medicines, name) {
        return Err(NotFound, "Medicine not found");
      }
      RecordWellFormed(name);
      var record := RecordOf(name);
      if !Has(record.serials, serial) {
        return Err(NotFound, "Serial not found");
      }
      var serials := Delete(record.serials, serial);
      PutRecordValid(name, Medicine(|serials|, serials));
      medicines := Put(medicines, name, Medicine(|serials|, serials));
      r := Ok(|serials|);
    }

    /** The medicine half of `bill_patient_pharmacy`. Failures before the
        scan, and a date that does not parse, change nothing; otherwise the
        expired units are purged and stay purged; when a sellable unit is
        left, the FIFO one is removed and reported. */
    method Dispense(medicine: string, now: int) returns (r: Result<Sale>)
      requires Valid()
      modifies this`medicines
      ensures Valid()
      ensures !Has(old(medicines), medicine) ==>
        r == Err(NotFound, medicine + " not found") && medicines == old(medicines)
      ensures Has(old(medicines), medicine) && old(RecordOf(medicine)).stock == 0 ==>
        r == Err(BadRequest, medicine + " out of stock") && medicines == old(medicines)
      ensures Has(old(medicines), medicine) && old(RecordOf(medicine)).stock != 0
              && !AllParse(old(RecordOf(medicine)).serials) ==>
        r.Err? && r.status == ServerError && medicines == old(medicines)
      ensures Has(old(medicines), medicine) && old(RecordOf(medicine)).stock != 0
              && AllParse(old(RecordOf(medicine)).serials) ==>
        var before := old(RecordOf(medicine)).serials;
        var left := SellableOnly(before, now);
        && r == SaleFrom(before, medicine, now)
        && (r.Err? ==> medicines == Put(old(medicines), medicine, Medicine(0, [])))
        && (r.Ok? ==> medicines == Put(old(medicines), medicine, Medicine(|left| - 1, Delete(left, r.value.serial))))
    {
      if !Has(medicines, medicine) {
        return Err(NotFound, medicine + " not found");
      }
      RecordWellFormed(medicine);
      var record := RecordOf(medicine);
      if record.stock == 0 {
        return Err(BadRequest, medicine + " out of stock");
      }
      r := SellStocked(medicine, now);
    }

    /** Dispensing past the lookup and the stock check: purge, sell the FIFO
        unit and store what is left. */
    method SellStocked(medicine: string, now: int) returns (r: Result<Sale>)
      requires Valid() && Has(medicines, medicine)
      modifies this`medicines
      ensures Valid()
      ensures !AllParse(old(RecordOf(medicine)).serials) ==>
        r.Err? && r.status == ServerError && medicines == old(medicines)
      ensures AllParse(old(RecordOf(medicine)).serials) ==>
        var before := old(RecordOf(medicine)).serials;
        var left := SellableOnly(before, now);
        && r == SaleFrom(before, medicine, now)
        && (r.Err? ==> medicines == Put(old(medicines), medicine, Medicine(0, [])))
        && (r.Ok? ==> medicines == Put(old(medicines), medicine, Medicine(|left| - 1, Delete(left, r.value.serial))))
    {
      RecordWellFormed(medicine);
      var out := SellFifo(RecordOf(medicine).serials, now);
      if out.Err? {
        return Err(out.status, out.detail);
      }
      var o := out.value;
      PutRecordValid(medicine, Medicine(|o.left|, o.left));
      medicines := Put(medicines, medicine, Medicine(|o.left|, o.left));
      if o.sold.None? {
        return Err(BadRequest, "No non-expired " + medicine + " available");
      }
      r := Ok(Sale(o.sold.value.0, o.sold.value.1, |o.left|, o.expiredRemoved));
    }

    /** The patient entry `bill_patient_pharmacy` charges, or a fresh one. */
    function AccountOf(patient: string): Account
      reads this`patients
    {
      if Has(patients, patient) then Get(patients, patient) else NewAccount
    }

    /** The ledger half of `bill_patient_pharmacy`: creates the entry if
        absent and charges it for one purchase. */
    method RecordPurchase(patient: string, p: Purchase) returns (total: real)
      requires Valid()
      modifies this`patients
      ensures Valid()
      ensures patients == Put(old(patients), patient, Charge(old(AccountOf(patient)), p))
      ensures total == old(AccountOf(patient)).totalPrice + p.price
    {
      var account := Charge(AccountOf(patient), p);
      ChargeValid(patient, p);
      patients := Put(patients, patient, account);
      total := account.totalPrice;
    }

    /** Charging one patient's entry keeps the ledger consistent. */
    lemma ChargeValid(patient: string, p: Purchase)
      requires Valid()
      ensures UniqueKeys(Put(patients, patient, Charge(AccountOf(patient), p)))
      ensures forall i :: 0 <= i < |Put(patients, patient, Charge(AccountOf(patient), p))| ==>
        Consistent(Put(patients, patient, Charge(AccountOf(patient), p))[i].1)
    {
      var account := AccountOf(patient);
      assert Consistent(account) by {
        if Has(patients, patient) { var i := IndexOf(patients, patient); }
      }
      ChargeKeepsConsistent(account, p);
      PutAccountValid(patient, Charge(account, p));
    }

    /** `bill_patient_pharmacy`: dispense, then, on a sale, charge the patient.
        A failed bill never touches the ledger. */
    method BillPatient(patient: string, medicine: string, now: int) returns (r: Result<Receipt>)
      requires Valid()
      modifies this
      ensures Valid()
      ensures !Has(old(medicines), medicine) ==>
        r == Err(NotFound, medicine + " not found") && unchanged(this)
      ensures Has(old(medicines), medicine) && old(RecordOf(medicine)).stock == 0 ==>
        r == Err(BadRequest, medicine + " out of stock") && unchanged(this)
      ensures Has(old(medicines), medicine) && old(RecordOf(medicine)).stock != 0
              && !AllParse(old(RecordOf(medicine)).serials) ==>
        r.Err? && r.status == ServerError && unchanged(this)
      ensures r.Err? ==> patients == old(patients)
      ensures Has(old(medicines), medicine) && old(RecordOf(medicine)).stock != 0
              && AllParse(old(RecordOf(medicine)).serials) ==>
        var before := old(RecordOf(medicine)).serials;
        var left := SellableOnly(before, now);
        var sale := SaleFrom(before, medicine, now);
        && (sale.Err? ==>
              && r == Err(sale.status, sale.detail)
              && medicines == Put(old(medicines), medicine, Medicine(0, [])))
        && (sale.Ok? ==>
              var p := Purchase(medicine, sale.value.serial, sale.value.price);
              && medicines == Put(old(medicines), medicine, Medicine(|left| - 1, Delete(left, p.serial)))
              && patients == Put(old(patients), patient, Charge(old(AccountOf(patient)), p))
              && r.Ok?
              && r.value == Receipt(patient, medicine, p.serial, p.price,
                   old(AccountOf(patient)).totalPrice + p.price, sale.value.remaining,
                   sale.value.expiredRemoved))
    {
      ghost var account := AccountOf(patient);
      ghost var sells := Has(medicines, medicine) && RecordOf(medicine).stock != 0 && AllParse(RecordOf(medicine).serials);
      ghost var expected := SaleFrom(RecordOf(medicine).serials, medicine, now);
      var sale := Dispense(medicine, now);
      assert sells ==> sale == expected;
      if sale.Err? {
        r := Err(sale.status, sale.detail);
      } else {
        var s := sale.value;
        assert sells && s == expected.value;
        var total := RecordPurchase(patient, Purchase(medicine, s.serial, s.price));
        assert total == account.totalPrice + s.price;
        r := Ok(Receipt(patient, medicine, s.serial, s.price, total, s.remaining, s.expiredRemoved));
      }
    }

    lemma PutAccountValid(name: string, a: Account)
      requires Valid() && Consistent(a)
      ensures UniqueKeys(Put(patients, name, a))
      ensures forall i :: 0 <= i < |Put(patients, name, a)| ==> Consistent(Put(patients, name, a)[i].1)
    {
      var r := Put(patients, name, a);
      forall i | 0 <= i < |r| ensures Consistent(r[i].1) {
        GetAt(r, i);
        if r[i].0 != name {
          var j := IndexOf(patients, r[i].0);
        }
      }
    }
  }

  lemma {:induction false} UniqueWithout(m: seq<(string, Serial)>, ks: set<string>)
    requires UniqueKeys(m)
    ensures UniqueKeys(Without(m, ks))
  {
    if |m| > 0 {
      assert UniqueKeys(m[1..]);
      UniqueWithout(m[1..], ks);
      var w := Without(m[1..], ks);
      forall e | e in w ensures e.0 != m[0].0 {
        var j :| 0 <= j < |m[1..]| && m[1..][j] == e;
        assert m[j + 1] == e;
      }
    }
  }
}
