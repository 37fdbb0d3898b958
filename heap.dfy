/** The triage queue's binary min-heap, as `heapq` keeps it in a Python list:
    the parent of position `i > 0` is `(i - 1) / 2` and no entry sorts before
    its parent. Entries compare as the tuple `(priority, arrival, patient)`;
    arrivals are distinct in the queue, so the patient is never compared. */
module Heap {

  /** The patient dict the queue carries: name, age and the normalised symptom. */
  datatype Patient = Patient(name: string, age: int, symptom: string)

  datatype Entry = Entry(priority: int, arrival: int, patient: Patient)

  /** Tuple `<` on `(priority, arrival)`. */
  predicate Lt(a: Entry, b: Entry)
  {
    a.priority < b.priority || (a.priority == b.priority && a.arrival < b.arrival)
  }

  /** Tuple `<=` on `(priority, arrival)`. */
  predicate Le(a: Entry, b: Entry)
  {
    a.priority < b.priority || (a.priority == b.priority && a.arrival <= b.arrival)
  }

  function Parent(i: nat): nat
    requires i > 0
  {
    (i - 1) / 2
  }

  /** The children of `p` are `2p + 1` and `2p + 2`. */
  lemma Children(p: nat, i: nat)
    requires i > 0
    ensures Parent(i) == p <==> i == 2 * p + 1 || i == 2 * p + 2
  {
  }

  /** The `heapq` invariant. */
  predicate IsHeap(h: seq<Entry>)
  {
    forall i :: 0 < i < |h| ==> Le(h[Parent(i)], h[i])
  }

  /** The heap invariant holds except on the link from `pos` to its parent,
      and `pos`'s parent is no greater than `pos`'s children: the state
      while an entry climbs. */
  predicate UpInv(h: seq<Entry>, pos: nat)
  {
    && pos < |h|
    && (forall i :: 0 < i < |h| && i != pos ==> Le(h[Parent(i)], h[i]))
    && (pos > 0 ==> forall i :: 0 < i < |h| && Parent(i) == pos ==> Le(h[Parent(pos)], h[i]))
  }

  /** As `UpInv`, and the links from `pos` to its children may be broken
      too: the state while the hole descends. */
  predicate DownInv(h: seq<Entry>, pos: nat)
  {
    && pos < |h|
    && (forall i :: 0 < i < |h| && i != pos && Parent(i) != pos ==> Le(h[Parent(i)], h[i]))
    && (pos > 0 ==> forall i :: 0 < i < |h| && Parent(i) == pos ==> Le(h[Parent(pos)], h[i]))
  }

  /** The root of a heap is its least entry. */
  lemma {:induction false} RootIsLeast(h: seq<Entry>, i: nat)
    requires IsHeap(h) && i < |h|
    ensures Le(h[0], h[i])
    decreases i
  {
    if i > 0 {
      RootIsLeast(h, Parent(i));
    }
  }

  /** Exchanging two positions. */
  function Swap(h: seq<Entry>, i: nat, j: nat): (r: seq<Entry>)
    requires i < |h| && j < |h|
    ensures |r| == |h| && r[i] == h[j] && r[j] == h[i]
    ensures forall k :: 0 <= k < |h| && k != i && k != j ==> r[k] == h[k]
    ensures multiset(r) == multiset(h)
  {
    h[i := h[j]][j := h[i]]
  }

  /** One climbing step keeps `UpInv`, one position higher. */
  lemma UpStep(h: seq<Entry>, p: nat)
    requires UpInv(h, p) && p > 0 && Lt(h[p], h[Parent(p)])
    ensures UpInv(Swap(h, p, Parent(p)), Parent(p))
  {
    var q := Parent(p);
    var r := Swap(h, p, q);
    forall i | 0 < i < |r| && i != q ensures Le(r[Parent(i)], r[i]) {
      if i == p {
      } else if Parent(i) == q {
        assert Le(h[q], h[i]);
      } else if Parent(i) == p {
        assert Le(h[q], h[i]);
      } else {
        assert r[i] == h[i] && r[Parent(i)] == h[Parent(i)];
      }
    }
    if q > 0 {
      forall i | 0 < i < |r| && Parent(i) == q ensures Le(r[Parent(q)], r[i]) {
        assert r[Parent(q)] == h[Parent(q)];
        assert Le(h[Parent(q)], h[q]);
        if i != p { assert Le(h[q], h[i]); }
      }
    }
  }

  /** One descending step keeps `DownInv`, at the chosen child. */
  lemma DownStep(h: seq<Entry>, p: nat, c: nat)
    requires DownInv(h, p) && c < |h| && c > 0 && Parent(c) == p
    requires forall i :: 0 < i < |h| && Parent(i) == p ==> Le(h[c], h[i])
    ensures DownInv(Swap(h, p, c), c)
  {
    var r := Swap(h, p, c);
    forall i | 0 < i < |r| && i != c && Parent(i) != c ensures Le(r[Parent(i)], r[i]) {
      if i == p {
        assert Le(h[Parent(p)], h[c]);
      } else if Parent(i) == p {
      } else {
        assert r[i] == h[i] && r[Parent(i)] == h[Parent(i)];
      }
    }
    forall i | 0 < i < |r| && Parent(i) == c ensures Le(r[Parent(c)], r[i]) {
      assert r[i] == h[i];
      assert Le(h[c], h[i]);
    }
  }

  /** At a leaf the descent is over and only the climb is left. */
  lemma AtLeaf(h: seq<Entry>, p: nat)
    requires DownInv(h, p) && 2 * p + 1 >= |h|
    ensures UpInv(h, p)
  {
    forall i | 0 < i < |h| ensures Parent(i) != p {
      Children(p, i);
    }
  }

  /** `_siftdown(heap, 0, pos)`: the entry at `pos` climbs while it is less
      than its parent. */
  method SiftUp(h: seq<Entry>, pos: nat) returns (r: seq<Entry>)
    requires UpInv(h, pos)
    ensures IsHeap(r)
    ensures multiset(r) == multiset(h) && |r| == |h|
  {
    r := h;
    var p := pos;
    while p > 0 && Lt(r[p], r[Parent(p)])
      invariant UpInv(r, p)
      invariant multiset(r) == multiset(h) && |r| == |h|
      decreases p
    {
      UpStep(r, p);
      r, p := Swap(r, p, Parent(p)), Parent(p);
    }
  }

  /** The first loop of `_siftup(heap, pos)`: the entry at `pos` is swapped
      with its smaller child (the right one on a tie) until it reaches a
      leaf, which is returned. */
  method SiftToLeaf(h: seq<Entry>, pos: nat) returns (r: seq<Entry>, leaf: nat)
    requires DownInv(h, pos)
    ensures UpInv(r, leaf)
    ensures multiset(r) == multiset(h) && |r| == |h|
  {
    r := h;
    leaf := pos;
    while 2 * leaf + 1 < |r|
      invariant DownInv(r, leaf)
      invariant multiset(r) == multiset(h) && |r| == |h|
      decreases |r| - leaf
    {
      var child := 2 * leaf + 1;
      if child + 1 < |r| && !Lt(r[child], r[child + 1]) {
        child := child + 1;
      }
      forall i | 0 < i < |r| && Parent(i) == leaf ensures Le(r[child], r[i]) {
        Children(leaf, i);
      }
      DownStep(r, leaf, child);
      r, leaf := Swap(r, leaf, child), child;
    }
    AtLeaf(r, leaf);
  }

  /** `heapq.heappush`. */
  method Push(h: seq<Entry>, e: Entry) returns (r: seq<Entry>)
    requires IsHeap(h)
    ensures IsHeap(r)
    ensures multiset(r) == multiset(h) + multiset{e} && |r| == |h| + 1
  {
    r := SiftUp(h + [e], |h|);
  }

  /** `heapq.heappop` on a non-empty heap: removes and returns the root. */
  method Pop(h: seq<Entry>) returns (top: Entry, r: seq<Entry>)
    requires IsHeap(h) && |h| > 0
    ensures top == h[0]
    ensures IsHeap(r)
    ensures multiset(r) + multiset{top} == multiset(h) && |r| == |h| - 1
  {
    var last := h[|h| - 1];
    r := h[..|h| - 1];
    assert h == r + [last];
    if |r| == 0 {
      return last, r;
    }
    top := r[0];
    var leaf;
    r, leaf := SiftToLeaf(r[0 := last], 0);
    r := SiftUp(r, leaf);
  }
}
