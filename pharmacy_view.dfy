/** The pharmacy page's classifiers: the stock badge, the expiry status on
    a whole number of days, and the filter that keeps only well-formed
    medicine entries from the `/api/pharmacy/medicines` response. */
module PharmacyView {
  import opened Common

  /** The `{ color, label }` record both classifiers return. */
  datatype Badge = Badge(color: string, title: string)

  // ---------------------------------------------------------- stock badge

  /** `getStockBadge`. */
  function StockBadge(stock: int): (r: Badge)
    ensures stock == 0 <==> r.title == "Out of Stock"
    ensures (stock < 5 && stock != 0) <==> r.title == "Critical"
    ensures 5 <= stock < 20 <==> r.title == "Low Stock"
    ensures 20 <= stock <==> r.title == "In Stock"
  {
    if stock == 0 then Badge("bg-gray-500 text-white", "Out of Stock")
    else if stock < 5 then Badge("bg-error text-white", "Critical")
    else if stock < 20 then Badge("bg-alert text-white", "Low Stock")
    else Badge("bg-success text-white", "In Stock")
  }

  /** How alarming a stock label is: 3 for out of stock down to 0 for in stock. */
  function StockSeverity(title: string): nat
  {
    if title == "Out of Stock" then 3
    else if title == "Critical" then 2
    else if title == "Low Stock" then 1
    else 0
  }

  /** Over non-negative stock, more units never give a more alarming badge. */
  lemma StockBadgeMonotone(a: int, b: int)
    requires 0 <= a <= b
    ensures StockSeverity(StockBadge(b).title) <= StockSeverity(StockBadge(a).title)
  {
  }

  // -------------------------------------------------------- expiry status

  /** The thresholds of `getExpiryStatus`, on the day difference it has
      already rounded up. */
  function ExpiryStatus(days: int): (r: Badge)
    ensures days < 0 <==> r.title == "Expired"
    ensures 0 <= days < 30 <==> r.title == "Expiring Soon"
    ensures 30 <= days < 90 <==> r.title == "Check Date"
    ensures 90 <= days <==> r.title == "Valid"
  {
    if days < 0 then Badge("text-gray-500", "Expired")
    else if days < 30 then Badge("text-error", "Expiring Soon")
    else if days < 90 then Badge("text-alert", "Check Date")
    else Badge("text-success", "Valid")
  }

  /** How alarming an expiry label is: 3 for expired down to 0 for valid. */
  function ExpirySeverity(title: string): nat
  {
    if title == "Expired" then 3
    else if title == "Expiring Soon" then 2
    else if title == "Check Date" then 1
    else 0
  }

  /** A later expiry never gives a more alarming status. */
  lemma ExpiryStatusMonotone(a: int, b: int)
    requires a <= b
    ensures ExpirySeverity(ExpiryStatus(b).title) <= ExpirySeverity(ExpiryStatus(a).title)
  {
  }

  // ------------------------------------------------------ medicine filter

  /** A parsed JSON value. Numbers are JavaScript numbers, taken as reals
      (NaN and the infinities are not represented). An object keeps its
      members in source order. */
  datatype Json =
    | JNull
    | JBool(b: bool)
    | JNumber(n: real)
    | JString(s: string)
    | JArray(items: seq<Json>)
    | JObject(members: seq<(string, Json)>)

  /** The member `k` of an object; `JSON.parse` keeps the last of repeated
      names. `None` is `undefined`. */
  function Member(members: seq<(string, Json)>, k: string): (r: Option<Json>)
    ensures r.None? <==> forall i :: 0 <= i < |members| ==> members[i].0 != k
    ensures r.Some? ==> exists i ::
      0 <= i < |members| && members[i] == (k, r.value) && forall j :: i < j < |members| ==> members[j].0 != k
  {
    if |members| == 0 then None
    else if members[|members| - 1].0 == k then Some(members[|members| - 1].1)
    else
      var r := Member(members[..|members| - 1], k);
      assert forall i :: 0 <= i < |members| - 1 ==> members[..|members| - 1][i] == members[i];
      r
  }

  /** `v.k`: a member of an object; every other JSON value has no property
      of these names. */
  function Prop(v: Json, k: string): Option<Json>
  {
    if v.JObject? then Member(v.members, k) else None
  }

  /** JavaScript truthiness, with `undefined` as `None`. */
  predicate Truthy(v: Option<Json>)
  {
    match v
    case None => false
    case Some(JNull) => false
    case Some(JBool(b)) => b
    case Some(JNumber(n)) => n != 0.0
    case Some(JString(s)) => |s| > 0
    case Some(JArray(_)) => true
    case Some(JObject(_)) => true
  }

  /** `med && med.name && typeof med.stock === 'number'`. */
  predicate Keep(med: Json)
  {
    Truthy(Some(med)) && Truthy(Prop(med, "name")) && match Prop(med, "stock") case Some(JNumber(_)) => true case _ => false
  }

  /** `data.filter(med => …)`: the entries to keep, in their order. */
  function Filter(items: seq<Json>): (r: seq<Json>)
    ensures |r| <= |items|
    ensures forall v :: v in r <==> v in items && Keep(v)
  {
    if |items| == 0 then []
    else
      assert forall v :: v in items <==> v == items[0] || v in items[1..];
      (if Keep(items[0]) then [items[0]] else []) + Filter(items[1..])
  }

  /** The kept entries of two lists in a row are the kept entries of each,
      in a row: filtering keeps the original order. */
  lemma {:induction false} FilterAppend(a: seq<Json>, b: seq<Json>)
    ensures Filter(a + b) == Filter(a) + Filter(b)
  {
    if |a| == 0 {
      assert a + b == b;
    } else {
      assert a + b == [a[0]] + (a[1..] + b);
      assert (a + b)[1..] == a[1..] + b;
      FilterAppend(a[1..], b);
    }
  }

  /** Filtering twice keeps what filtering once keeps. */
  lemma {:induction false} FilterIdempotent(items: seq<Json>)
    ensures Filter(Filter(items)) == Filter(items)
  {
    if |items| > 0 {
      FilterIdempotent(items[1..]);
      var head := if Keep(items[0]) then [items[0]] else [];
      FilterAppend(head, Filter(items[1..]));
      if Keep(items[0]) {
        assert head[1..] == [];
      }
    }
  }

  /** The medicines list `fetchMedicines` keeps: the filtered array, or
      nothing when the response is not an array. */
  function ValidMedicines(data: Json): (r: seq<Json>)
    ensures !data.JArray? ==> r == []
    ensures data.JArray? ==> forall v :: v in r <==> v in data.items && Keep(v)
    ensures forall v :: v in r ==> v.JObject? && Prop(v, "stock").Some? && Prop(v, "stock").value.JNumber?
  {
    if data.JArray? then Filter(data.items) else []
  }
}
