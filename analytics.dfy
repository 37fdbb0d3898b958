/** The three pharmacy analytics queries. Each pushes tuples onto a `heapq`
    heap and reads its root, i.e. takes the least tuple in Python's tuple
    order; here that is the least `SortKey`. None of them changes state. */
module Analytics {
  import opened Common
  import opened Assoc
  import opened Text
  import opened Inventory

  // ------------------------------------------------------------- tuple order

  /** A tuple as `heapq` compares it, padded to four fields: a number, two
      strings and a price. Shorter tuples pad with equal constants, which
      leaves their order unchanged. */
  datatype SortKey = SortKey(n: int, a: string, b: string, p: real)

  /** Python's `<` on tuples: the first differing field decides. */
  predicate KeyLt(x: SortKey, y: SortKey)
  {
    || x.n < y.n
    || (x.n == y.n && StrLt(x.a, y.a))
    || (x.n == y.n && x.a == y.a && StrLt(x.b, y.b))
    || (x.n == y.n && x.a == y.a && x.b == y.b && x.p < y.p)
  }

  lemma KeyLtIrreflexive(x: SortKey)
    ensures !KeyLt(x, x)
  {
    StrLtIrreflexive(x.a);
    StrLtIrreflexive(x.b);
  }

  lemma KeyLtTransitive(x: SortKey, y: SortKey, z: SortKey)
    requires KeyLt(x, y) && KeyLt(y, z)
    ensures KeyLt(x, z)
  {
    if x.n == y.n == z.n {
      if StrLt(x.a, y.a) && StrLt(y.a, z.a) { StrLtTransitive(x.a, y.a, z.a); }
      if x.a == y.a == z.a && StrLt(x.b, y.b) && StrLt(y.b, z.b) { StrLtTransitive(x.b, y.b, z.b); }
    }
  }

  lemma KeyLtTotal(x: SortKey, y: SortKey)
    requires x != y
    ensures KeyLt(x, y) || KeyLt(y, x)
  {
    if x.a != y.a { StrLtTotal(x.a, y.a); }
    if x.b != y.b { StrLtTotal(x.b, y.b); }
  }

  /** The position of a least key: `heap[0]` after pushing every key. */
  function Least(ks: seq<SortKey>): (r: Option<nat>)
    ensures r.None? <==> |ks| == 0
    ensures r.Some? ==> r.value < |ks|
    ensures r.Some? ==> forall j :: 0 <= j < |ks| ==> ks[r.value] == ks[j] || KeyLt(ks[r.value], ks[j])
  {
    if |ks| == 0 then None
    else
      var t := ks[1..];
      var rest := Least(t);
      assert forall j :: 1 <= j < |ks| ==> ks[j] == t[j - 1];
      if rest.None? then Some(0)
      else if KeyLt(ks[0], t[rest.value]) then
        assert forall j :: 0 <= j < |ks| ==> ks[0] == ks[j] || KeyLt(ks[0], ks[j]) by {
          forall j | 1 <= j < |ks| ensures ks[0] == ks[j] || KeyLt(ks[0], ks[j]) {
            if t[rest.value] != ks[j] { KeyLtTransitive(ks[0], t[rest.value], ks[j]); }
          }
        }
        Some(0)
      else
        assert t[rest.value] == ks[0] || KeyLt(t[rest.value], ks[0]) by {
          if t[rest.value] != ks[0] { KeyLtTotal(t[rest.value], ks[0]); }
        }
        Some(rest.value + 1)
  }

  /** The least key comes first in any ordering: no key is strictly below it. */
  lemma LeastIsMinimal(ks: seq<SortKey>, j: nat)
    requires j < |ks|
    ensures Least(ks).Some? && !KeyLt(ks[j], ks[Least(ks).value])
  {
    var i := Least(ks).value;
    KeyLtIrreflexive(ks[i]);
    if ks[i] != ks[j] && KeyLt(ks[j], ks[i]) {
      KeyLtTransitive(ks[i], ks[j], ks[i]);
    }
  }

  // ----------------------------------------------------------- most-demanded

  /** The sum of the counts filed under `m` in one frequency map. */
  function Total(freq: seq<(string, nat)>, m: string): nat
  {
    if |freq| == 0 then 0
    else (if freq[0].0 == m then freq[0].1 else 0) + Total(freq[1..], m)
  }

  /** The inner loop of `get_most_demanded_medicine`:
      `freq_map[med] = freq_map.get(med, 0) + count` for each entry. */
  function AddCounts(acc: seq<(string, nat)>, freq: seq<(string, nat)>): (r: seq<(string, nat)>)
    decreases |freq|
  {
    if |freq| == 0 then acc
    else AddCounts(Put(acc, freq[0].0, Count(acc, freq[0].0) + freq[0].1), freq[1..])
  }

  /** Adding one map's counts adds its total for every medicine, and a
      medicine is listed afterwards iff it was listed before or in the map. */
  lemma {:induction false} AddCountsSums(acc: seq<(string, nat)>, freq: seq<(string, nat)>, m: string)
    requires UniqueKeys(acc)
    ensures UniqueKeys(AddCounts(acc, freq))
    ensures Count(AddCounts(acc, freq), m) == Count(acc, m) + Total(freq, m)
    ensures Has(AddCounts(acc, freq), m) <==> Has(acc, m) || Has(freq, m)
    decreases |freq|
  {
    if |freq| > 0 {
      var next := Put(acc, freq[0].0, Count(acc, freq[0].0) + freq[0].1);
      AddCountsSums(next, freq[1..], m);
      HasTail(freq, m);
    }
  }

  /** `freq_map` after the loop over every patient, in ledger order. */
  function Demand(patients: seq<(string, Account)>): seq<(string, nat)>
  {
    if |patients| == 0 then []
    else AddCounts(Demand(patients[..|patients| - 1]), patients[|patients| - 1].1.frequency)
  }

  /** How often `m` was bought, summed over every patient's frequency map. */
  function TotalDemand(patients: seq<(string, Account)>, m: string): nat
  {
    if |patients| == 0 then 0
    else TotalDemand(patients[..|patients| - 1], m) + Total(patients[|patients| - 1].1.frequency, m)
  }

  /** The merged map has one entry per medicine, holding the sum of that
      medicine's counts over all patients. */
  lemma {:induction false} DemandCounts(patients: seq<(string, Account)>, m: string)
    ensures UniqueKeys(Demand(patients))
    ensures Count(Demand(patients), m) == TotalDemand(patients, m)
  {
    if |patients| > 0 {
      var init := patients[..|patients| - 1];
      DemandCounts(init, m);
      AddCountsSums(Demand(init), patients[|patients| - 1].1.frequency, m);
    }
  }

  /** The merged map lists exactly the medicines some patient bought. */
  lemma {:induction false} DemandHas(patients: seq<(string, Account)>, m: string)
    ensures Has(Demand(patients), m) <==> exists i :: 0 <= i < |patients| && Has(patients[i].1.frequency, m)
  {
    if |patients| > 0 {
      var init := patients[..|patients| - 1];
      var last := patients[|patients| - 1].1.frequency;
      DemandHas(init, m);
      DemandCounts(init, m);
      AddCountsSums(Demand(init), last, m);
      if exists i :: 0 <= i < |patients| && Has(patients[i].1.frequency, m) {
        var i :| 0 <= i < |patients| && Has(patients[i].1.frequency, m);
        if i < |init| { assert init[i] == patients[i]; }
      }
      if Has(Demand(init), m) {
        var i :| 0 <= i < |init| && Has(init[i].1.frequency, m);
        assert patients[i] == init[i];
      }
    }
  }

  /** The merged map holds, for every medicine some patient bought, the sum
      of that medicine's counts over all patients, and nothing else. */
  lemma DemandSums(patients: seq<(string, Account)>, m: string)
    ensures UniqueKeys(Demand(patients))
    ensures Count(Demand(patients), m) == TotalDemand(patients, m)
    ensures Has(Demand(patients), m) <==> exists i :: 0 <= i < |patients| && Has(patients[i].1.frequency, m)
  {
    DemandCounts(patients, m);
    DemandHas(patients, m);
  }

  function DemandKeys(d: seq<(string, nat)>): (ks: seq<SortKey>)
    ensures |ks| == |d|
    ensures forall i :: 0 <= i < |d| ==> ks[i] == SortKey(0 - d[i].1 as int, d[i].0, "", 0.0)
  {
    seq(|d|, i requires 0 <= i < |d| => SortKey(0 - d[i].1 as int, d[i].0, "", 0.0))
  }

  /** `get_most_demanded_medicine`: the root of the heap of `(-count, med)`. */
  function MostDemanded(patients: seq<(string, Account)>): (r: Option<(string, nat)>)
  {
    var d := Demand(patients);
    match Least(DemandKeys(d))
    case None => None
    case Some(i) => Some(d[i])
  }

  /** The answer is None exactly when no patient has bought anything. */
  lemma MostDemandedNone(patients: seq<(string, Account)>)
    ensures MostDemanded(patients).None? <==>
      forall i :: 0 <= i < |patients| ==> |patients[i].1.frequency| == 0
  {
    var d := Demand(patients);
    DemandSums(patients, "");
    if |d| == 0 {
      forall i | 0 <= i < |patients| ensures |patients[i].1.frequency| == 0 {
        if |patients[i].1.frequency| > 0 {
          var m := patients[i].1.frequency[0].0;
          DemandSums(patients, m);
          assert Has(patients[i].1.frequency, m);
        }
      }
    } else {
      var m0 := d[0].0;
      DemandSums(patients, m0);
      assert Has(d, m0);
    }
  }

  /** `best` with its count is at least as demanded as `m` with `total`,
      ties going to the smaller name. */
  predicate Beats(best: (string, nat), m: string, total: nat)
  {
    total < best.1 || (total == best.1 && (m == best.0 || StrLt(best.0, m)))
  }

  /** An answer is a medicine somebody bought, with its total demand, and
      every other medicine was bought less often, or as often with a name
      that sorts after it. */
  lemma MostDemandedBest(patients: seq<(string, Account)>)
    ensures MostDemanded(patients).Some? ==>
      exists i :: 0 <= i < |patients| && Has(patients[i].1.frequency, MostDemanded(patients).value.0)
    ensures MostDemanded(patients).Some? ==>
      MostDemanded(patients).value.1 == TotalDemand(patients, MostDemanded(patients).value.0)
    ensures forall i, m :: MostDemanded(patients).Some? && 0 <= i < |patients| && Has(patients[i].1.frequency, m) ==>
      Beats(MostDemanded(patients).value, m, TotalDemand(patients, m))
  {
    var d := Demand(patients);
    DemandSums(patients, "");
    var ks := DemandKeys(d);
    if |d| > 0 {
      var k := Least(ks).value;
      assert MostDemanded(patients) == Some(d[k]);
      var name, count := d[k].0, d[k].1;
      GetAt(d, k);
      DemandSums(patients, name);
      assert count == TotalDemand(patients, name);
      forall i, m | 0 <= i < |patients| && Has(patients[i].1.frequency, m)
        ensures Beats((name, count), m, TotalDemand(patients, m))
      {
        DemandSums(patients, m);
        var j := IndexOf(d, m);
        GetAt(d, j);
        assert TotalDemand(patients, m) == d[j].1;
        KeyOrder(d, k, j);
      }
      assert MostDemanded(patients).value.0 == name && MostDemanded(patients).value.1 == count;
    } else {
      assert MostDemanded(patients).None?;
    }
  }

  /** Between two entries of the demand map, the one whose sort key is
      smaller has the larger count, or the same count and the smaller name. */
  lemma KeyOrder(d: seq<(string, nat)>, k: nat, j: nat)
    requires k < |d| && j < |d|
    requires DemandKeys(d)[k] == DemandKeys(d)[j] || KeyLt(DemandKeys(d)[k], DemandKeys(d)[j])
    ensures d[j].1 < d[k].1 || (d[j].1 == d[k].1 && (d[j].0 == d[k].0 || StrLt(d[k].0, d[j].0)))
  {
    assert !StrLt("", "");
  }

  /** Both halves together: None exactly when no patient has bought
      anything, and otherwise the medicine with the largest total demand. */
  lemma MostDemandedIsMost(patients: seq<(string, Account)>)
    ensures MostDemanded(patients).None? <==>
      forall i :: 0 <= i < |patients| ==> |patients[i].1.frequency| == 0
    ensures MostDemanded(patients).Some? ==>
      exists i :: 0 <= i < |patients| && Has(patients[i].1.frequency, MostDemanded(patients).value.0)
    ensures MostDemanded(patients).Some? ==>
      MostDemanded(patients).value.1 == TotalDemand(patients, MostDemanded(patients).value.0)
    ensures forall i, m :: MostDemanded(patients).Some? && 0 <= i < |patients| && Has(patients[i].1.frequency, m) ==>
      Beats(MostDemanded(patients).value, m, TotalDemand(patients, m))
  {
    MostDemandedNone(patients);
    MostDemandedBest(patients);
  }

  // ------------------------------------------------------------ lowest-stock

  function StockKeys(ms: seq<(string, Medicine)>): (ks: seq<SortKey>)
    ensures |ks| == |ms|
    ensures forall i :: 0 <= i < |ms| ==> ks[i] == SortKey(ms[i].1.stock, ms[i].0, "", 0.0)
  {
    seq(|ms|, i requires 0 <= i < |ms| => SortKey(ms[i].1.stock, ms[i].0, "", 0.0))
  }

  /** `get_lowest_stock_medicine`: the root of the heap of `(stock, name)`,
      over every medicine, out-of-stock ones included. */
  function LowestStock(medicines: seq<(string, Medicine)>): (r: Option<(string, int)>)
    ensures r.None? <==> |medicines| == 0
    ensures r.Some? ==> exists i :: 0 <= i < |medicines| && r.value == (medicines[i].0, medicines[i].1.stock)
    ensures r.Some? ==> forall i :: 0 <= i < |medicines| ==>
      r.value.1 < medicines[i].1.stock
      || (r.value.1 == medicines[i].1.stock && (r.value.0 == medicines[i].0 || StrLt(r.value.0, medicines[i].0)))
  {
    match Least(StockKeys(medicines))
    case None => None
    case Some(i) => Some((medicines[i].0, medicines[i].1.stock))
  }

  // ----------------------------------------------------------- nearest-expiry

  /** One parseable unit as the nearest-expiry query pushes it. */
  datatype Batch = Batch(expiry: int, medicine: string, serial: string, price: real)

  /** The units of one medicine whose date parses, in serial order; the
      others are skipped. */
  function Parsed(name: string, serials: seq<(string, Serial)>): (r: seq<Batch>)
    ensures forall b :: b in r <==>
      (b.medicine == name && exists j :: 0 <= j < |serials| && serials[j] == (b.serial, Serial(Some(b.expiry), b.price)))
  {
    if |serials| == 0 then []
    else
      var rest := Parsed(name, serials[1..]);
      assert forall j :: 1 <= j < |serials| ==> serials[j] == serials[1..][j - 1];
      match serials[0].1.expiry
      case None => rest
      case Some(day) => [Batch(day, name, serials[0].0, serials[0].1.price)] + rest
  }

  /** Every parseable unit of every medicine, expired or not. */
  function Batches(ms: seq<(string, Medicine)>): (r: seq<Batch>)
    ensures forall b :: b in r <==> exists i :: 0 <= i < |ms| && b in Parsed(ms[i].0, ms[i].1.serials)
  {
    if |ms| == 0 then []
    else
      assert forall i :: 1 <= i < |ms| ==> ms[i] == ms[1..][i - 1];
      Parsed(ms[0].0, ms[0].1.serials) + Batches(ms[1..])
  }

  function BatchKeys(bs: seq<Batch>): (ks: seq<SortKey>)
    ensures |ks| == |bs|
    ensures forall i :: 0 <= i < |bs| ==> ks[i] == SortKey(bs[i].expiry, bs[i].medicine, bs[i].serial, bs[i].price)
  {
    seq(|bs|, i requires 0 <= i < |bs| => SortKey(bs[i].expiry, bs[i].medicine, bs[i].serial, bs[i].price))
  }

  /** Batch order: expiry, then medicine name, then serial, then price. */
  predicate BatchLt(x: Batch, y: Batch)
  {
    KeyLt(SortKey(x.expiry, x.medicine, x.serial, x.price), SortKey(y.expiry, y.medicine, y.serial, y.price))
  }

  /** `get_nearest_expiry`: `heappop` of the heap of every parseable unit. */
  function NearestExpiry(medicines: seq<(string, Medicine)>): (r: Option<Batch>)
    ensures r.None? <==> |Batches(medicines)| == 0
    ensures r.Some? ==> r.value in Batches(medicines)
    ensures r.Some? ==> forall b :: b in Batches(medicines) ==> b == r.value || BatchLt(r.value, b)
  {
    var bs := Batches(medicines);
    match Least(BatchKeys(bs))
    case None => None
    case Some(i) =>
      assert forall b :: b in bs ==> b == bs[i] || BatchLt(bs[i], b) by {
        forall b | b in bs ensures b == bs[i] || BatchLt(bs[i], b) {
          var j :| 0 <= j < |bs| && bs[j] == b;
        }
      }
      Some(bs[i])
  }

  /** Expired units are candidates too: a unit whose date parses is never
      below the answer, whatever the current time. */
  lemma NearestExpiryCoversAll(medicines: seq<(string, Medicine)>, i: nat, j: nat)
    requires i < |medicines| && j < |medicines[i].1.serials|
    requires medicines[i].1.serials[j].1.expiry.Some?
    ensures NearestExpiry(medicines).Some?
    ensures NearestExpiry(medicines).value.expiry <= medicines[i].1.serials[j].1.expiry.value
  {
    var s := medicines[i].1.serials[j];
    var b := Batch(s.1.expiry.value, medicines[i].0, s.0, s.1.price);
    assert b in Parsed(medicines[i].0, medicines[i].1.serials);
    assert b in Batches(medicines);
  }

  /** With no parseable unit at all there is no answer. */
  lemma NearestExpiryNone(medicines: seq<(string, Medicine)>)
    requires forall i, j :: 0 <= i < |medicines| && 0 <= j < |medicines[i].1.serials| ==>
      medicines[i].1.serials[j].1.expiry.None?
    ensures NearestExpiry(medicines).None?
  {
    if |Batches(medicines)| > 0 {
      var b := Batches(medicines)[0];
      assert b in Batches(medicines);
      var i :| 0 <= i < |medicines| && b in Parsed(medicines[i].0, medicines[i].1.serials);
    }
  }
}
