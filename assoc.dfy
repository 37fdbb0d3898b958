/** Ordered association lists: the model of a Python `dict`, which keeps its
    keys in insertion order. Assigning to an existing key keeps its place;
    assigning to a new key appends; `del` closes the gap. */
module Assoc {

  predicate UniqueKeys<K(==,!new), V(!new)>(m: seq<(K, V)>)
  {
    forall i, j :: 0 <= i < j < |m| ==> m[i].0 != m[j].0
  }

  /** `k in d`. */
  predicate Has<K(==,!new), V(!new)>(m: seq<(K, V)>, k: K)
  {
    exists i :: 0 <= i < |m| && m[i].0 == k
  }

  /** Position of the first entry for `k`. */
  function IndexOf<K(==,!new), V(!new)>(m: seq<(K, V)>, k: K): (i: nat)
    requires Has(m, k)
    ensures i < |m| && m[i].0 == k
    ensures forall j :: 0 <= j < i ==> m[j].0 != k
  {
    if m[0].0 == k then 0
    else
      assert Has(m[1..], k) by {
        var i :| 0 <= i < |m| && m[i].0 == k;
        assert m[1..][i - 1].0 == k;
      }
      1 + IndexOf(m[1..], k)
  }

  /** `d[k]`. */
  function Get<K(==,!new), V(!new)>(m: seq<(K, V)>, k: K): V
    requires Has(m, k)
  {
    m[IndexOf(m, k)].1
  }

  /** The first entry for `k` is the one `IndexOf` finds. */
  lemma IndexOfIs<K(!new), V(!new)>(m: seq<(K, V)>, k: K, i: nat)
    requires i < |m| && m[i].0 == k
    requires forall j :: 0 <= j < i ==> m[j].0 != k
    ensures Has(m, k) && IndexOf(m, k) == i
  {
  }

  lemma HasTail<K(!new), V(!new)>(m: seq<(K, V)>, k: K)
    requires |m| > 0
    ensures Has(m, k) <==> m[0].0 == k || Has(m[1..], k)
  {
    if Has(m[1..], k) {
      var i :| 0 <= i < |m[1..]| && m[1..][i].0 == k;
      assert m[i + 1].0 == k;
    }
    if Has(m, k) && m[0].0 != k {
      var i :| 0 <= i < |m| && m[i].0 == k;
      assert m[1..][i - 1].0 == k;
    }
  }

  /** With distinct keys, an entry found anywhere is the one `d[k]` returns. */
  lemma GetAt<K(!new), V(!new)>(m: seq<(K, V)>, i: nat)
    requires UniqueKeys(m) && i < |m|
    ensures Has(m, m[i].0) && IndexOf(m, m[i].0) == i && Get(m, m[i].0) == m[i].1
  {
    IndexOfIs(m, m[i].0, i);
  }

  /** `d[k] = v`. */
  function Put<K(==,!new), V(!new)>(m: seq<(K, V)>, k: K, v: V): (r: seq<(K, V)>)
    ensures |r| == if Has(m, k) then |m| else |m| + 1
    ensures forall i :: 0 <= i < |m| ==> r[i].0 == m[i].0
    ensures Has(r, k) && Get(r, k) == v
    ensures !Has(m, k) ==> r == m + [(k, v)]
    ensures forall k' :: k' != k ==> (Has(r, k') <==> Has(m, k'))
    ensures forall k' :: k' != k && Has(m, k') ==> Get(r, k') == Get(m, k')
    ensures UniqueKeys(m) ==> UniqueKeys(r)
  {
    var r := if Has(m, k) then m[IndexOf(m, k) := (k, v)] else m + [(k, v)];
    assert forall i :: 0 <= i < |m| ==> r[i].0 == m[i].0;
    if Has(m, k) then
      IndexOfIs(r, k, IndexOf(m, k));
      PutOthers(m, r, k);
      r
    else
      IndexOfIs(r, k, |m|);
      PutOthers(m, r, k);
      r
  }

  /** Writing back the value a key already has changes nothing. */
  lemma PutGet<K(!new), V(!new)>(m: seq<(K, V)>, k: K)
    requires Has(m, k)
    ensures Put(m, k, Get(m, k)) == m
  {
  }

  /** The second of two writes to the same present key wins. */
  lemma PutPut<K(!new), V(!new)>(m: seq<(K, V)>, k: K, a: V, b: V)
    requires Has(m, k)
    ensures Put(Put(m, k, a), k, b) == Put(m, k, b)
  {
    var m1 := Put(m, k, a);
    IndexOfIs(m1, k, IndexOf(m, k));
  }

  /** An update that keeps every key in its place leaves the other keys' values alone. */
  lemma PutOthers<K(!new), V(!new)>(m: seq<(K, V)>, r: seq<(K, V)>, k: K)
    requires |m| <= |r| && forall i :: 0 <= i < |m| ==> r[i].0 == m[i].0
    requires forall i :: 0 <= i < |m| && m[i].0 != k ==> r[i] == m[i]
    requires forall i :: |m| <= i < |r| ==> r[i].0 == k
    ensures forall k' :: k' != k ==> (Has(r, k') <==> Has(m, k'))
    ensures forall k' :: k' != k && Has(m, k') ==> Get(r, k') == Get(m, k')
  {
    forall k' | k' != k ensures (Has(r, k') <==> Has(m, k')) && (Has(m, k') ==> Get(r, k') == Get(m, k')) {
      if Has(m, k') {
        IndexOfIs(r, k', IndexOf(m, k'));
      }
      if Has(r, k') {
        assert IndexOf(r, k') < |m|;
      }
    }
  }

  /** Removing the first entry for `k` keeps every other key and its value. */
  lemma RemoveFirstKeeps<K(!new), V(!new)>(m: seq<(K, V)>, k: K, k': K)
    requires Has(m, k) && k' != k
    ensures var r := m[..IndexOf(m, k)] + m[IndexOf(m, k) + 1..];
      (Has(r, k') <==> Has(m, k')) && (Has(m, k') ==> Get(r, k') == Get(m, k'))
  {
    var i := IndexOf(m, k);
    var r := m[..i] + m[i + 1..];
    assert forall l :: 0 <= l < |r| ==> r[l] == m[if l < i then l else l + 1];
    if Has(m, k') {
      var j := IndexOf(m, k');
      var at := if j < i then j else j - 1;
      assert r[at] == m[j];
      forall l | 0 <= l < at ensures r[l].0 != k' {
        assert r[l] == m[if l < i then l else l + 1];
      }
      IndexOfIs(r, k', at);
    } else {
      forall l | 0 <= l < |r| ensures r[l].0 != k' {
        assert r[l] == m[if l < i then l else l + 1];
      }
    }
  }

  /** Removing the only entry for `k` leaves unique keys without `k`. */
  lemma RemoveFirstUnique<K(!new), V(!new)>(m: seq<(K, V)>, k: K)
    requires Has(m, k) && UniqueKeys(m)
    ensures var r := m[..IndexOf(m, k)] + m[IndexOf(m, k) + 1..];
      UniqueKeys(r) && !Has(r, k)
  {
    var i := IndexOf(m, k);
    var r := m[..i] + m[i + 1..];
    assert forall j :: 0 <= j < |r| ==> r[j] == m[if j < i then j else j + 1];
    forall j | 0 <= j < |r| ensures r[j].0 != k {
      assert r[j] == m[if j < i then j else j + 1];
    }
  }

  /** What removing the first entry for `k` keeps of the other keys. */
  lemma RemoveFirst<K(!new), V(!new)>(m: seq<(K, V)>, k: K)
    requires Has(m, k)
    ensures var r := m[..IndexOf(m, k)] + m[IndexOf(m, k) + 1..];
      (forall k' :: k' != k ==> (Has(r, k') <==> Has(m, k'))) &&
      (forall k' :: k' != k && Has(m, k') ==> Get(r, k') == Get(m, k')) &&
      (UniqueKeys(m) ==> UniqueKeys(r) && !Has(r, k))
  {
    forall k' | k' != k
      ensures var r := m[..IndexOf(m, k)] + m[IndexOf(m, k) + 1..];
        (Has(r, k') <==> Has(m, k')) && (Has(m, k') ==> Get(r, k') == Get(m, k'))
    {
      RemoveFirstKeeps(m, k, k');
    }
    if UniqueKeys(m) {
      RemoveFirstUnique(m, k);
    }
  }

  /** `del d[k]`, or no change when `k` is absent. */
  function Delete<K(==,!new), V(!new)>(m: seq<(K, V)>, k: K): (r: seq<(K, V)>)
    ensures |r| == if Has(m, k) then |m| - 1 else |m|
    ensures !Has(m, k) ==> r == m
    ensures Has(m, k) ==> r == m[..IndexOf(m, k)] + m[IndexOf(m, k) + 1..]
    ensures forall k' :: k' != k ==> (Has(r, k') <==> Has(m, k'))
    ensures forall k' :: k' != k && Has(m, k') ==> Get(r, k') == Get(m, k')
    ensures UniqueKeys(m) ==> UniqueKeys(r) && !Has(r, k)
  {
    if Has(m, k) then
      RemoveFirst(m, k);
      m[..IndexOf(m, k)] + m[IndexOf(m, k) + 1..]
    else
      m
  }

  /** Deleting a key behind a different first entry. */
  lemma DeleteCons<K(!new), V(!new)>(e: (K, V), x: seq<(K, V)>, k: K)
    requires e.0 != k
    ensures Delete([e] + x, k) == [e] + Delete(x, k)
  {
    var m := [e] + x;
    assert m[1..] == x;
    HasTail(m, k);
    if Has(x, k) {
      var i := IndexOf(x, k);
      IndexOfIs(m, k, i + 1);
      assert m[..i + 1] + m[i + 2..] == [e] + (x[..i] + x[i + 1..]);
    }
  }

  /** The entries whose keys are not in `ks`, in their original order. */
  function Without<K(==,!new), V(!new)>(m: seq<(K, V)>, ks: set<K>): (r: seq<(K, V)>)
    ensures |r| <= |m|
    ensures forall e :: e in r <==> e in m && e.0 !in ks
  {
    if |m| == 0 then []
    else if m[0].0 in ks then Without(m[1..], ks)
    else [m[0]] + Without(m[1..], ks)
  }

  /** Leaving out a key that does not occur changes nothing. */
  lemma {:induction false} WithoutAbsent<K(!new), V(!new)>(m: seq<(K, V)>, ks: set<K>, k: K)
    requires !Has(m, k)
    ensures Without(m, ks + {k}) == Without(m, ks)
  {
    if |m| > 0 {
      HasTail(m, k);
      WithoutAbsent(m[1..], ks, k);
    }
  }

  /** Deleting the keys of `ks` one by one: one more `del` is one more key left out. */
  lemma {:induction false} DeleteWithout<K(!new), V(!new)>(m: seq<(K, V)>, ks: set<K>, k: K)
    requires UniqueKeys(m)
    ensures Delete(Without(m, ks), k) == Without(m, ks + {k})
  {
    if |m| > 0 {
      var t := m[1..];
      assert UniqueKeys(t);
      if m[0].0 in ks {
        DeleteWithout(t, ks, k);
      } else if m[0].0 == k {
        var w := [m[0]] + Without(t, ks);
        assert w[1..] == Without(t, ks);
        IndexOfIs(w, k, 0);
        assert forall j :: 0 <= j < |t| ==> t[j].0 != k by {
          forall j | 0 <= j < |t| ensures t[j].0 != k { assert t[j] == m[j + 1]; }
        }
        WithoutAbsent(t, ks, k);
      } else {
        DeleteWithout(t, ks, k);
        DeleteCons(m[0], Without(t, ks), k);
      }
    }
  }
}
