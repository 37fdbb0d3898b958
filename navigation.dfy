/** Hospital navigation: an undirected weighted graph kept as a dictionary
    from location to its adjacency list, and Dijkstra's shortest path with
    lazy deletion from a `heapq` frontier, followed by path reconstruction
    along `previous_nodes`. */
module Navigation {
  import opened Common
  import opened Text
  import opened Assoc

  /** Location to the list of `(neighbour, distance)` pairs, in insertion order. */
  type Graph = seq<(string, seq<(string, nat)>)>

  /** Every neighbour is itself a location, and no location is listed twice. */
  ghost predicate Closed(g: Graph)
  {
    && UniqueKeys(g)
    && forall u, j :: Has(g, u) && 0 <= j < |Get(g, u)| ==> Has(g, Get(g, u)[j].0)
  }

  /** `(v, w)` is in `u`'s adjacency list. */
  predicate Edge(g: Graph, u: string, v: string, w: nat)
  {
    Has(g, u) && (v, w) in Get(g, u)
  }

  /** Every edge has its reverse, of the same weight. */
  ghost predicate Symmetric(g: Graph)
  {
    forall u, v, w :: Edge(g, u, v, w) ==> Edge(g, v, u, w)
  }

  /** `add_vertex`: a new location starts with no neighbours; an existing
      one is left alone. */
  function WithVertex(g: Graph, v: string): (r: Graph)
    ensures Has(r, v) && forall u :: u != v ==> (Has(r, u) <==> Has(g, u))
    ensures forall u, x, w :: Edge(r, u, x, w) <==> Edge(g, u, x, w)
  {
    if Has(g, v) then g
    else
      assert g + [(v, [])] == Put(g, v, []);
      g + [(v, [])]
  }

  /** `add_vertex` keeps the graph closed and undirected. */
  lemma WithVertexKeepsShape(g: Graph, v: string)
    requires Closed(g) && Symmetric(g)
    ensures Closed(WithVertex(g, v)) && Symmetric(WithVertex(g, v))
  {
    var r: Graph := WithVertex(g, v);
    if !Has(g, v) {
      forall u: string, j: int | Has(r, u) && 0 <= j < |Get(r, u)| ensures Has(r, Get(r, u)[j].0) {
        assert Get(r, v) == [];
        assert u != v;
        assert Get(r, u) == Get(g, u);
      }
    }
  }

  /** `add_edge`: when both ends are locations, each gets the other appended
      to its list (a self-loop is appended twice to the same list); otherwise
      nothing changes. */
  function WithEdge(g: Graph, u: string, v: string, w: nat): Graph
    requires UniqueKeys(g)
  {
    if Has(g, u) && Has(g, v) then
      var g1 := Put(g, u, Get(g, u) + [(v, w)]);
      Put(g1, v, Get(g1, v) + [(u, w)])
    else g
  }

  /** What `add_edge` does to the adjacency list of `a` when both ends exist. */
  lemma WithEdgeList(g: Graph, u: string, v: string, w: nat, a: string)
    requires UniqueKeys(g) && Has(g, u) && Has(g, v)
    ensures forall k :: Has(WithEdge(g, u, v, w), k) <==> Has(g, k)
    ensures Has(g, a) ==>
      Get(WithEdge(g, u, v, w), a) == if a == u && a == v then Get(g, a) + [(v, w), (u, w)]
                                     else if a == u then Get(g, a) + [(v, w)]
                                     else if a == v then Get(g, a) + [(u, w)]
                                     else Get(g, a)
  {
    var g1 := Put(g, u, Get(g, u) + [(v, w)]);
    if u == v {
      assert Get(g1, v) == Get(g, u) + [(v, w)];
    }
  }

  /** When both ends exist, `add_edge` adds exactly the edge and its
      reverse; otherwise the graph is unchanged. */
  lemma WithEdgeEdges(g: Graph, u: string, v: string, w: nat)
    requires UniqueKeys(g)
    ensures forall k :: Has(WithEdge(g, u, v, w), k) <==> Has(g, k)
    ensures forall a: string, b: string, c: nat :: Edge(WithEdge(g, u, v, w), a, b, c) <==>
      Edge(g, a, b, c) || (Has(g, u) && Has(g, v) && ((a, b, c) == (u, v, w) || (a, b, c) == (v, u, w)))
  {
    if Has(g, u) && Has(g, v) {
      forall a: string, b: string, c: nat
        ensures Edge(WithEdge(g, u, v, w), a, b, c) <==> Edge(g, a, b, c) || (a, b, c) == (u, v, w) || (a, b, c) == (v, u, w)
      {
        WithEdgeAt(g, u, v, w, a, b, c);
      }
    }
  }

  /** `WithEdgeEdges` for one candidate edge. */
  lemma WithEdgeAt(g: Graph, u: string, v: string, w: nat, a: string, b: string, c: nat)
    requires UniqueKeys(g) && Has(g, u) && Has(g, v)
    ensures Edge(WithEdge(g, u, v, w), a, b, c) <==> Edge(g, a, b, c) || (a, b, c) == (u, v, w) || (a, b, c) == (v, u, w)
  {
    WithEdgeList(g, u, v, w, a);
    if Has(g, a) {
      var before := Get(g, a);
      var added := if a == u && a == v then [(v, w), (u, w)]
                   else if a == u then [(v, w)]
                   else if a == v then [(u, w)]
                   else [];
      assert Get(WithEdge(g, u, v, w), a) == before + added;
      assert (b, c) in before + added <==> (b, c) in before || (b, c) in added;
    }
  }

  /** `add_edge` keeps every neighbour a location. */
  lemma WithEdgeClosed(g: Graph, u: string, v: string, w: nat)
    requires Closed(g)
    ensures Closed(WithEdge(g, u, v, w))
  {
    var r: Graph := WithEdge(g, u, v, w);
    if Has(g, u) && Has(g, v) {
      WithEdgeList(g, u, v, w, u);
      forall a: string, j: int | Has(r, a) && 0 <= j < |Get(r, a)| ensures Has(r, Get(r, a)[j].0) {
        WithEdgeClosedAt(g, u, v, w, a, j);
      }
    }
  }

  /** `WithEdgeClosed` for one entry of one adjacency list. */
  lemma WithEdgeClosedAt(g: Graph, u: string, v: string, w: nat, a: string, j: nat)
    requires Closed(g) && Has(g, u) && Has(g, v)
    requires Has(WithEdge(g, u, v, w), a) && j < |Get(WithEdge(g, u, v, w), a)|
    ensures Has(WithEdge(g, u, v, w), Get(WithEdge(g, u, v, w), a)[j].0)
  {
    var r := WithEdge(g, u, v, w);
    WithEdgeList(g, u, v, w, a);
    var before := Get(g, a);
    var added := if a == u && a == v then [(v, w), (u, w)]
                 else if a == u then [(v, w)]
                 else if a == v then [(u, w)]
                 else [];
    assert Get(r, a) == before + added;
    if j < |before| {
      assert Get(r, a)[j] == before[j];
      assert Has(g, before[j].0);
    } else {
      assert Get(r, a)[j] == added[j - |before|];
    }
  }

  /** `add_edge` keeps the graph undirected. */
  lemma WithEdgeSymmetric(g: Graph, u: string, v: string, w: nat)
    requires UniqueKeys(g) && Symmetric(g)
    ensures Symmetric(WithEdge(g, u, v, w))
  {
    WithEdgeEdges(g, u, v, w);
  }

  // ------------------------------------------------------------------ walks

  /** A walk from `s`: each step names the node it reaches and the weight of
      the edge it takes. */
  predicate IsWalk(g: Graph, s: string, steps: seq<(string, nat)>)
    decreases |steps|
  {
    |steps| == 0 || (Edge(g, s, steps[0].0, steps[0].1) && IsWalk(g, steps[0].0, steps[1..]))
  }

  /** Where a walk from `s` ends. */
  function Last(s: string, steps: seq<(string, nat)>): string
  {
    if |steps| == 0 then s else steps[|steps| - 1].0
  }

  /** The total weight of a walk. */
  function Cost(steps: seq<(string, nat)>): nat
  {
    if |steps| == 0 then 0 else steps[0].1 + Cost(steps[1..])
  }

  /** The locations a walk visits, its start included. */
  function Nodes(s: string, steps: seq<(string, nat)>): (r: seq<string>)
    ensures |r| == |steps| + 1 && r[0] == s && r[|steps|] == Last(s, steps)
    ensures forall i :: 0 <= i < |steps| ==> r[i + 1] == steps[i].0
  {
    [s] + seq(|steps|, i requires 0 <= i < |steps| => steps[i].0)
  }

  /** Consecutive locations of a walk are joined by an edge of the step's weight. */
  lemma {:induction false} WalkNodesAreEdges(g: Graph, s: string, steps: seq<(string, nat)>, i: nat)
    requires IsWalk(g, s, steps) && i < |steps|
    ensures Edge(g, Nodes(s, steps)[i], Nodes(s, steps)[i + 1], steps[i].1)
    decreases i
  {
    if i > 0 {
      WalkNodesAreEdges(g, steps[0].0, steps[1..], i - 1);
      assert Nodes(s, steps)[i] == Nodes(steps[0].0, steps[1..])[i - 1];
    }
  }

  // --------------------------------------------------------- the invariant

  /** The first `k` edges out of `x` are relaxed. */
  ghost predicate RelaxedFrom(g: Graph, d: map<string, nat>, x: string, k: nat)
  {
    && Has(g, x) && x in d && k <= |Get(g, x)|
    && forall j :: 0 <= j < k ==> Get(g, x)[j].0 in d && d[Get(g, x)[j].0] <= d[x] + Get(g, x)[j].1
  }

  /** Every edge out of a settled node is relaxed. */
  ghost predicate Relaxed(g: Graph, d: map<string, nat>, settled: set<string>)
  {
    forall x :: x in settled ==> Has(g, x) && RelaxedFrom(g, d, x, |Get(g, x)|)
  }

  /** `distances` starts at 0 for the start, names only locations, and the
      end has not been settled yet. */
  ghost predicate Dists(g: Graph, start: string, end: string, d: map<string, nat>, settled: set<string>)
  {
    && start in d && d[start] == 0
    && (forall u :: u in d ==> Has(g, u))
    && end !in settled
  }

  /** The lazy-deletion frontier: every entry is at or above its node's
      distance, strictly above for a settled node; every unsettled node with
      a distance has exactly one current entry; settled distances are below
      everything still waiting. */
  ghost predicate Frontier(d: map<string, nat>, pq: seq<(nat, string)>, settled: set<string>)
  {
    && settled <= d.Keys
    && (forall i :: 0 <= i < |pq| ==> pq[i].1 in d && d[pq[i].1] <= pq[i].0)
    && (forall i :: 0 <= i < |pq| && pq[i].1 in settled ==> d[pq[i].1] < pq[i].0)
    && (forall u :: u in d && u !in settled ==> (d[u], u) in pq)
    && (forall u :: u in d ==> multiset(pq)[(d[u], u)] <= 1)
    && (forall x, i :: x in settled && 0 <= i < |pq| ==> d[x] <= pq[i].0)
    && (forall x, u :: x in settled && u in d && u !in settled ==> d[x] <= d[u])
  }

  /** Settled nodes are numbered below `n`. */
  ghost predicate Ranks(settled: set<string>, order: map<string, nat>, n: nat)
  {
    forall u :: u in settled ==> u in order && order[u] < n
  }

  /** `previous_nodes`: every reached node but the start points back along
      an edge of weight `pw[v]` to a settled node, its distance is exactly
      that node's plus the weight, and settled nodes point to earlier ones. */
  ghost predicate Tree(g: Graph, start: string, d: map<string, nat>, prev: map<string, string>,
                       pw: map<string, nat>, settled: set<string>, order: map<string, nat>)
  {
    && (forall v :: v in prev <==> v in d && v != start)
    && (forall v :: v in prev ==>
          && v in pw && prev[v] in settled && prev[v] in d
          && Edge(g, prev[v], v, pw[v]) && d[prev[v]] + pw[v] == d[v])
    && (forall v :: v in prev && v in settled ==> v in order && prev[v] in order && order[prev[v]] < order[v])
  }

  /** The loop invariant of `dijkstra`, apart from relaxation. `settled`
      holds the nodes popped at their final distance, numbered by `order`. */
  ghost predicate Inv(g: Graph, start: string, end: string, d: map<string, nat>, prev: map<string, string>,
                      pw: map<string, nat>, pq: seq<(nat, string)>, settled: set<string>,
                      order: map<string, nat>, n: nat)
  {
    && Dists(g, start, end, d, settled)
    && Frontier(d, pq, settled)
    && Ranks(settled, order, n)
    && Tree(g, start, d, prev, pw, settled, order)
  }

  /** The heart of the correctness proof: when the edges out of the settled
      nodes are relaxed and every unsettled node with a distance has distance
      at least `m`, a walk from a node `u` with a distance that ends outside
      the settled set costs at least `m - d[u]`. */
  lemma {:induction false} FrontierBound(g: Graph, d: map<string, nat>, settled: set<string>, m: nat,
                                         u: string, steps: seq<(string, nat)>)
    requires settled <= d.Keys && Relaxed(g, d, settled)
    requires forall v :: v in d && v !in settled ==> m <= d[v]
    requires u in d && IsWalk(g, u, steps) && Last(u, steps) !in settled
    ensures m <= d[u] + Cost(steps)
    decreases |steps|
  {
    if u in settled {
      var (v, w) := steps[0];
      var j :| 0 <= j < |Get(g, u)| && Get(g, u)[j] == (v, w);
      assert RelaxedFrom(g, d, u, |Get(g, u)|);
      assert Last(u, steps) == Last(v, steps[1..]);
      FrontierBound(g, d, settled, m, v, steps[1..]);
    }
  }

  /** `heapq.heappop` on the frontier: the least `(distance, node)` tuple. */
  predicate PairLe(a: (nat, string), b: (nat, string))
  {
    a.0 < b.0 || (a.0 == b.0 && (a.1 == b.1 || StrLt(a.1, b.1)))
  }

  method PopLeast(pq: seq<(nat, string)>) returns (top: (nat, string), rest: seq<(nat, string)>)
    requires |pq| > 0
    ensures top in pq && forall i :: 0 <= i < |pq| ==> PairLe(top, pq[i])
    ensures multiset(pq) == multiset(rest) + multiset{top} && |rest| == |pq| - 1
  {
    var k := 0;
    var i := 1;
    while i < |pq|
      invariant 0 <= k < i <= |pq|
      invariant forall j :: 0 <= j < i ==> PairLe(pq[k], pq[j])
    {
      if !PairLe(pq[k], pq[i]) {
        if pq[k].1 != pq[i].1 {
          StrLtTotal(pq[k].1, pq[i].1);
        }
        forall j | 0 <= j < i ensures PairLe(pq[i], pq[j]) {
          if pq[k].0 == pq[j].0 && pq[i].0 == pq[k].0 && pq[k].1 != pq[j].1 {
            StrLtTransitive(pq[i].1, pq[k].1, pq[j].1);
          }
        }
        k := i;
      }
      i := i + 1;
    }
    top := pq[k];
    rest := pq[..k] + pq[k + 1..];
    assert pq == pq[..k] + [pq[k]] + pq[k + 1..];
  }

  /** The set of locations. */
  function Locations(g: Graph): set<string>
  {
    set i | 0 <= i < |g| :: g[i].0
  }

  lemma LocationsHas(g: Graph, u: string)
    ensures u in Locations(g) <==> Has(g, u)
  {
    if Has(g, u) {
      var i :| 0 <= i < |g| && g[i].0 == u;
    }
  }

  /** Settling one more location leaves fewer unsettled ones. */
  lemma FewerUnsettled(all: set<string>, settled: set<string>, x: string)
    requires x in all && x !in settled
    ensures |all - (settled + {x})| < |all - settled|
  {
    assert all - (settled + {x}) == (all - settled) - {x};
  }

  /** Dropping a stale frontier entry keeps the frontier invariant. */
  lemma DropStale(d: map<string, nat>, pq: seq<(nat, string)>, settled: set<string>,
                  top: (nat, string), rest: seq<(nat, string)>)
    requires Frontier(d, pq, settled)
    requires multiset(pq) == multiset(rest) + multiset{top} && top.1 in d && top.0 > d[top.1]
    ensures Frontier(d, rest, settled)
  {
    forall i | 0 <= i < |rest| ensures rest[i] in pq {
      assert rest[i] in multiset(pq);
    }
    forall u | u in d && u !in settled ensures (d[u], u) in rest {
      assert (d[u], u) in multiset(pq) && (d[u], u) != top;
    }
  }

  /** Settling the popped node `x`, whose entry was the least, keeps the
      frontier invariant: its one current entry is gone. */
  lemma SettleFrontier(d: map<string, nat>, pq: seq<(nat, string)>, settled: set<string>,
                       top: (nat, string), rest: seq<(nat, string)>)
    requires Frontier(d, pq, settled)
    requires multiset(pq) == multiset(rest) + multiset{top}
    requires top.1 in d && top.0 == d[top.1] && top.1 !in settled
    requires forall i :: 0 <= i < |pq| ==> top.0 <= pq[i].0
    ensures Frontier(d, rest, settled + {top.1})
  {
    var x := top.1;
    var s2 := settled + {x};
    forall i | 0 <= i < |rest| ensures rest[i] in pq {
      assert rest[i] in multiset(pq);
    }
    assert multiset(rest)[top] == 0;
    forall i | 0 <= i < |rest| && rest[i].1 in s2 ensures d[rest[i].1] < rest[i].0 {
      if rest[i].1 == x {
        assert rest[i] in multiset(rest);
      }
    }
    forall u | u in d && u !in s2 ensures (d[u], u) in rest {
      assert (d[u], u) in multiset(pq) && (d[u], u) != top;
    }
    forall u | u in d && u !in s2 ensures d[x] <= d[u] {
      var i :| 0 <= i < |pq| && pq[i] == (d[u], u);
    }
    forall u | u in d ensures multiset(rest)[(d[u], u)] <= 1 {
      assert multiset(pq)[(d[u], u)] <= 1;
    }
    forall y, i | y in s2 && 0 <= i < |rest| ensures d[y] <= rest[i].0 {
      var j :| 0 <= j < |pq| && pq[j] == rest[i];
    }
  }

  /** Settling `x` numbers it `n`, after every settled node. */
  lemma SettleTree(g: Graph, start: string, d: map<string, nat>, prev: map<string, string>,
                   pw: map<string, nat>, settled: set<string>, order: map<string, nat>, n: nat, x: string)
    requires Tree(g, start, d, prev, pw, settled, order) && Ranks(settled, order, n) && x !in settled
    ensures Tree(g, start, d, prev, pw, settled + {x}, order[x := n])
    ensures Ranks(settled + {x}, order[x := n], n + 1)
  {
    forall v | v in prev && v in settled + {x}
      ensures v in order[x := n] && prev[v] in order[x := n] && order[x := n][prev[v]] < order[x := n][v]
    {
      assert prev[v] in settled;
    }
  }

  /** Relaxing an edge `(y, w)` out of a settled node, when it improves `y`,
      keeps the frontier invariant once `(d[x] + w, y)` is pushed. */
  lemma RelaxFrontier(d: map<string, nat>, pq: seq<(nat, string)>, settled: set<string>, y: string, nd: nat)
    requires Frontier(d, pq, settled)
    requires y !in settled && (y !in d || nd < d[y])
    requires forall s :: s in settled ==> d[s] <= nd
    ensures Frontier(d[y := nd], pq + [(nd, y)], settled)
  {
    var d2 := d[y := nd];
    var pq2 := pq + [(nd, y)];
    forall i | 0 <= i < |pq| ensures pq[i] != (nd, y) {
    }
    assert (nd, y) !in multiset(pq);
    forall u | u in d2 ensures multiset(pq2)[(d2[u], u)] <= 1 {
      if u != y { assert (d2[u], u) != (nd, y); }
    }
    forall u | u in d2 && u !in settled ensures (d2[u], u) in pq2 {
      if u != y { assert (d[u], u) in pq; }
    }
  }

  /** The same step keeps `previous_nodes` a tree of shortest edges. */
  lemma RelaxTree(g: Graph, start: string, d: map<string, nat>, prev: map<string, string>,
                  pw: map<string, nat>, settled: set<string>, order: map<string, nat>,
                  x: string, y: string, w: nat, nd: nat)
    requires Tree(g, start, d, prev, pw, settled, order)
    requires x in settled && x in d && Edge(g, x, y, w) && y !in settled && y != start
    requires nd == d[x] + w && (y !in d || nd < d[y])
    ensures Tree(g, start, d[y := nd], prev[y := x], pw[y := w], settled, order)
  {
    var d2, prev2, pw2 := d[y := nd], prev[y := x], pw[y := w];
    forall v | v in prev2
      ensures && v in pw2 && prev2[v] in settled && prev2[v] in d2
              && Edge(g, prev2[v], v, pw2[v]) && d2[prev2[v]] + pw2[v] == d2[v]
    {
      if v != y {
        assert prev[v] in settled;
        assert prev2[v] == prev[v] && pw2[v] == pw[v] && d2[prev[v]] == d[prev[v]] && d2[v] == d[v];
      }
    }
    forall v | v in prev2 && v in settled
      ensures v in order && prev2[v] in order && order[prev2[v]] < order[v]
    {
      assert v != y;
    }
  }

  /** Lowering the distance of one unsettled node keeps the relaxed edges
      relaxed. */
  lemma RelaxKeeps(g: Graph, d: map<string, nat>, settled: set<string>, x: string, k: nat, y: string, nd: nat)
    requires Relaxed(g, d, settled - {x}) && RelaxedFrom(g, d, x, k)
    requires x in settled && y !in settled && (y !in d || nd < d[y])
    ensures Relaxed(g, d[y := nd], settled - {x}) && RelaxedFrom(g, d[y := nd], x, k)
  {
    var d2 := d[y := nd];
    forall s | s in settled - {x} ensures RelaxedFrom(g, d2, s, |Get(g, s)|) {
      assert RelaxedFrom(g, d, s, |Get(g, s)|);
    }
  }

  /** Relaxing every edge of `x` adds `x` to the relaxed nodes. */
  lemma RelaxedJoin(g: Graph, d: map<string, nat>, settled: set<string>, x: string)
    requires Relaxed(g, d, settled - {x}) && Has(g, x) && RelaxedFrom(g, d, x, |Get(g, x)|)
    ensures Relaxed(g, d, settled)
  {
  }

  /** An edge that does not improve its target is already relaxed. */
  lemma RelaxSkip(g: Graph, d: map<string, nat>, x: string, k: nat)
    requires RelaxedFrom(g, d, x, k) && k < |Get(g, x)|
    requires Get(g, x)[k].0 in d && d[Get(g, x)[k].0] <= d[x] + Get(g, x)[k].1
    ensures RelaxedFrom(g, d, x, k + 1)
  {
  }

  /** Giving a location other than the start a distance keeps the
      distance table well formed. */
  lemma RelaxDists(g: Graph, start: string, end: string, d: map<string, nat>, settled: set<string>,
                   y: string, nd: nat)
    requires Dists(g, start, end, d, settled) && Has(g, y) && (y !in d || 0 < d[y])
    ensures Dists(g, start, end, d[y := nd], settled)
  {
    assert y != start;
  }

  /** One pass of the inner loop on an edge `(y, w)` out of `x` that
      improves `y`: the loop invariant holds after the update, and `y` was
      not settled. */
  lemma RelaxInv(g: Graph, start: string, end: string, x: string, y: string, w: nat, nd: nat,
                 d: map<string, nat>, prev: map<string, string>, pw: map<string, nat>, pq: seq<(nat, string)>,
                 settled: set<string>, order: map<string, nat>, n: nat)
    requires Has(g, y) && Edge(g, x, y, w)
    requires Inv(g, start, end, d, prev, pw, pq, settled, order, n)
    requires x in settled && settled <= d.Keys && forall s :: s in settled ==> d[s] <= d[x]
    requires nd == d[x] + w && (y !in d || nd < d[y])
    ensures y !in settled
    ensures Inv(g, start, end, d[y := nd], prev[y := x], pw[y := w], pq + [(nd, y)], settled, order, n)
  {
    assert y !in settled;
    RelaxDists(g, start, end, d, settled, y, nd);
    RelaxFrontier(d, pq, settled, y, nd);
    RelaxTree(g, start, d, prev, pw, settled, order, x, y, w, nd);
  }

  /** One pass of the inner loop on edge `k` out of `x`, `(y, w)`, when it
      improves `y`. */
  lemma RelaxOne(g: Graph, start: string, end: string, x: string, k: nat, y: string, w: nat, nd: nat,
                 d: map<string, nat>, prev: map<string, string>, pw: map<string, nat>, pq: seq<(nat, string)>,
                 settled: set<string>, order: map<string, nat>, n: nat)
    requires Has(g, y)
    requires Inv(g, start, end, d, prev, pw, pq, settled, order, n)
    requires x in settled && Relaxed(g, d, settled - {x}) && RelaxedFrom(g, d, x, k)
    requires k < |Get(g, x)| && Get(g, x)[k] == (y, w)
    requires forall s :: s in settled ==> d[s] <= d[x]
    requires nd == d[x] + w && (y !in d || nd < d[y])
    ensures Inv(g, start, end, d[y := nd], prev[y := x], pw[y := w], pq + [(nd, y)], settled, order, n)
    ensures Relaxed(g, d[y := nd], settled - {x}) && RelaxedFrom(g, d[y := nd], x, k + 1)
    ensures forall s :: s in settled ==> d[y := nd][s] <= d[y := nd][x]
  {
    assert Edge(g, x, y, w);
    RelaxInv(g, start, end, x, y, w, nd, d, prev, pw, pq, settled, order, n);
    RelaxKeeps(g, d, settled, x, k, y, nd);
  }

  /** The `for neighbor, weight in graph[current]` loop: relaxes every edge
      out of the node just settled. */
  method RelaxAll(g: Graph, start: string, end: string, x: string, d0: map<string, nat>,
                  prev0: map<string, string>, ghost pw0: map<string, nat>, pq0: seq<(nat, string)>,
                  ghost settled: set<string>, ghost order: map<string, nat>, ghost n: nat)
    returns (d: map<string, nat>, prev: map<string, string>, pq: seq<(nat, string)>, ghost pw: map<string, nat>)
    requires Has(g, x) && forall j :: 0 <= j < |Get(g, x)| ==> Has(g, Get(g, x)[j].0)
    requires Inv(g, start, end, d0, prev0, pw0, pq0, settled, order, n)
    requires x in settled && Relaxed(g, d0, settled - {x})
    requires forall s :: s in settled ==> d0[s] <= d0[x]
    ensures Inv(g, start, end, d, prev, pw, pq, settled, order, n)
    ensures Relaxed(g, d, settled)
  {
    d, prev, pq, pw := d0, prev0, pq0, pw0;
    ghost var others := settled - {x};
    var adj := Get(g, x);

    for k := 0 to |adj|
      invariant x in d
      invariant Inv(g, start, end, d, prev, pw, pq, settled, order, n)
      invariant Relaxed(g, d, others) && RelaxedFrom(g, d, x, k)
      invariant forall s :: s in settled ==> d[s] <= d[x]
    {
      var (y, w) := adj[k];
      var nd: nat := d[x] + w;
      if y !in d || nd < d[y] {
        RelaxOne(g, start, end, x, k, y, w, nd, d, prev, pw, pq, settled, order, n);
        d, prev, pw, pq := d[y := nd], prev[y := x], pw[y := w], pq + [(nd, y)];
      } else {
        RelaxSkip(g, d, x, k);
      }
    }
    RelaxedJoin(g, d, settled, x);
  }

  /** Popping the least entry `top` of a current node other than `end` and
      settling that node keeps the invariant and leaves the other settled
      nodes relaxed, all at or below the new one. */
  lemma Settle(g: Graph, start: string, end: string, top: (nat, string), rest: seq<(nat, string)>,
               d: map<string, nat>, prev: map<string, string>, pw: map<string, nat>,
               pq: seq<(nat, string)>, settled: set<string>, order: map<string, nat>, n: nat)
    requires Inv(g, start, end, d, prev, pw, pq, settled, order, n) && Relaxed(g, d, settled)
    requires multiset(pq) == multiset(rest) + multiset{top} && (forall i :: 0 <= i < |pq| ==> top.0 <= pq[i].0)
    requires top.1 in d && top.0 == d[top.1] && top.1 !in settled && top.1 != end
    ensures Inv(g, start, end, d, prev, pw, rest, settled + {top.1}, order[top.1 := n], n + 1)
    ensures Relaxed(g, d, (settled + {top.1}) - {top.1})
    ensures forall s :: s in settled + {top.1} ==> s in d && d[s] <= d[top.1]
  {
    var x := top.1;
    assert (settled + {x}) - {x} == settled;
    assert Dists(g, start, end, d, settled + {x});
    SettleFrontier(d, pq, settled, top, rest);
    SettleTree(g, start, d, prev, pw, settled, order, n, x);
  }

  /** One pass of the outer loop past the stale and `end` checks: `x` is
      settled at its popped distance and its edges are relaxed. */
  method Visit(g: Graph, start: string, end: string, top: (nat, string), rest: seq<(nat, string)>,
               d0: map<string, nat>, prev0: map<string, string>, ghost pw0: map<string, nat>,
               ghost pq0: seq<(nat, string)>, ghost settled0: set<string>, ghost order0: map<string, nat>,
               ghost n0: nat)
    returns (d: map<string, nat>, prev: map<string, string>, pq: seq<(nat, string)>, ghost pw: map<string, nat>,
             ghost settled: set<string>, ghost order: map<string, nat>, ghost n: nat)
    requires Closed(g) && Has(g, top.1)
    requires Inv(g, start, end, d0, prev0, pw0, pq0, settled0, order0, n0) && Relaxed(g, d0, settled0)
    requires multiset(pq0) == multiset(rest) + multiset{top} && (forall i :: 0 <= i < |pq0| ==> top.0 <= pq0[i].0)
    requires top.1 in d0 && top.0 == d0[top.1] && top.1 !in settled0 && top.1 != end
    ensures Inv(g, start, end, d, prev, pw, pq, settled, order, n) && Relaxed(g, d, settled)
    ensures settled == settled0 + {top.1}
  {
    var x := top.1;
    Settle(g, start, end, top, rest, d0, prev0, pw0, pq0, settled0, order0, n0);
    settled, order, n := settled0 + {x}, order0[x := n0], n0 + 1;
    d, prev, pq, pw := RelaxAll(g, start, end, x, d0, prev0, pw0, rest, settled, order, n);
  }

  /** One step back along `previous_nodes` extends the walk to `end` at
      its front and keeps its cost equal to the distance of `end`. */
  lemma ChainStep(g: Graph, start: string, end: string, d: map<string, nat>, prev: map<string, string>,
                  pw: map<string, nat>, settled: set<string>, order: map<string, nat>, n: nat,
                  current: string, steps: seq<(string, nat)>)
    requires Ranks(settled, order, n) && Tree(g, start, d, prev, pw, settled, order)
    requires current in prev && current in d && end in d
    requires IsWalk(g, current, steps) && Last(current, steps) == end && d[current] + Cost(steps) == d[end]
    ensures prev[current] in d && current in pw && prev[current] in settled
    ensures var p := prev[current]; var t := [(current, pw[current])] + steps;
      && IsWalk(g, p, t) && Last(p, t) == end && d[p] + Cost(t) == d[end]
      && Nodes(p, t) == [p] + Nodes(current, steps)
    ensures order[prev[current]] < if current in settled then order[current] else n
  {
    var t := [(current, pw[current])] + steps;
    assert t[1..] == steps;
    assert Nodes(prev[current], t) == [prev[current]] + Nodes(current, steps);
  }

  /** The `while current in previous_nodes` loop: walks `previous_nodes` back
      from `end` and, if it moved at all, puts `start` in front. */
  method Reconstruct(g: Graph, start: string, end: string, d: map<string, nat>, prev: map<string, string>,
                     ghost pw: map<string, nat>, ghost settled: set<string>,
                     ghost order: map<string, nat>, ghost n: nat)
    returns (path: seq<string>, ghost steps: seq<(string, nat)>)
    requires Dists(g, start, end, d, settled) && Ranks(settled, order, n) && Tree(g, start, d, prev, pw, settled, order)
    requires end in d
    ensures IsWalk(g, start, steps) && Last(start, steps) == end && Cost(steps) == d[end]
    ensures start == end ==> path == []
    ensures start != end ==> path == Nodes(start, steps)
  {
    var current := end;
    path := [];
    steps := [];
    while current in prev
      invariant current in d
      invariant IsWalk(g, current, steps) && Last(current, steps) == end && d[current] + Cost(steps) == d[end]
      invariant [current] + path == Nodes(current, steps)
      invariant start == end ==> steps == []
      decreases if current in settled then order[current] else n
    {
      var p := prev[current];
      ChainStep(g, start, end, d, prev, pw, settled, order, n, current, steps);
      steps := [(current, pw[current])] + steps;
      path := [current] + path;
      current := p;
    }
    assert current == start;
    if path != [] {
      path := [start] + path;
    }
  }

  /** A popped entry that is not stale belongs to an unsettled node whose
      distance is the least of all unsettled ones, and no walk reaches it for
      less. */
  lemma PoppedIsFinal(g: Graph, start: string, end: string, d: map<string, nat>, prev: map<string, string>,
                      pw: map<string, nat>, pq: seq<(nat, string)>, settled: set<string>,
                      order: map<string, nat>, n: nat, top: (nat, string))
    requires Inv(g, start, end, d, prev, pw, pq, settled, order, n) && Relaxed(g, d, settled)
    requires top in pq && (forall i :: 0 <= i < |pq| ==> PairLe(top, pq[i]))
    requires top.1 in d && top.0 <= d[top.1]
    ensures top.1 !in settled
    ensures forall u :: u in d && u !in settled ==> top.0 <= d[u]
    ensures forall steps :: IsWalk(g, start, steps) && Last(start, steps) == top.1 ==> top.0 <= Cost(steps)
  {
    var (dx, x) := top;
    forall u | u in d && u !in settled ensures dx <= d[u] {
      var i :| 0 <= i < |pq| && pq[i] == (d[u], u);
    }
    forall steps | IsWalk(g, start, steps) && Last(start, steps) == x ensures dx <= Cost(steps) {
      FrontierBound(g, d, settled, dx, start, steps);
    }
  }

  /** Once the frontier is empty, nothing outside `distances` is reachable. */
  lemma Unreached(g: Graph, start: string, end: string, d: map<string, nat>, prev: map<string, string>,
                  pw: map<string, nat>, settled: set<string>, order: map<string, nat>, n: nat)
    requires Inv(g, start, end, d, prev, pw, [], settled, order, n) && Relaxed(g, d, settled)
    requires end !in d
    ensures forall steps :: IsWalk(g, start, steps) ==> Last(start, steps) != end
  {
    forall steps | IsWalk(g, start, steps) ensures Last(start, steps) != end {
      if Last(start, steps) == end {
        FrontierBound(g, d, settled, Cost(steps) + 1, start, steps);
      }
    }
  }

  /** `dijkstra(graph, start, end)`. Returns None and no path when `end`
      cannot be reached; otherwise the least cost of a walk to `end` and the
      locations of one such walk, except that for `start == end` the path is
      empty, because reconstruction only adds the start in front of a
      non-empty path. */
  method Dijkstra(g: Graph, start: string, end: string) returns (dist: Option<nat>, path: seq<string>)
    requires Closed(g) && Has(g, start) && Has(g, end)
    ensures dist.None? <==> forall steps :: IsWalk(g, start, steps) ==> Last(start, steps) != end
    ensures dist.None? ==> path == []
    ensures dist.Some? ==> forall steps :: IsWalk(g, start, steps) && Last(start, steps) == end ==>
      dist.value <= Cost(steps)
    ensures dist.Some? && start == end ==> dist.value == 0 && path == []
    ensures dist.Some? && start != end ==> exists steps ::
      && IsWalk(g, start, steps) && Last(start, steps) == end
      && Cost(steps) == dist.value && path == Nodes(start, steps)
  {
    var d, prev, found;
    ghost var pw, settled, order, n;
    d, prev, found, pw, settled, order, n := Search(g, start, end);
    if !found {
      Unreached(g, start, end, d, prev, pw, settled, order, n);
      return None, [];
    }
    dist := Some(d[end]);
    ghost var steps;
    path, steps := Reconstruct(g, start, end, d, prev, pw, settled, order, n);
  }

  /** The `while pq` loop of `dijkstra`: pops the nearest waiting location
      until the queue runs dry or `end` comes off it. It stops with `end`
      reached exactly when `end` received a distance, and that distance is
      then no longer than any walk to `end`. */
  method Search(g: Graph, start: string, end: string)
    returns (d: map<string, nat>, prev: map<string, string>, found: bool, ghost pw: map<string, nat>,
             ghost settled: set<string>, ghost order: map<string, nat>, ghost n: nat)
    requires Closed(g) && Has(g, start) && Has(g, end)
    ensures Dists(g, start, end, d, settled) && Ranks(settled, order, n) && Tree(g, start, d, prev, pw, settled, order)
    ensures found <==> end in d
    ensures !found ==> Inv(g, start, end, d, prev, pw, [], settled, order, n) && Relaxed(g, d, settled)
    ensures found ==> forall steps :: IsWalk(g, start, steps) && Last(start, steps) == end ==> d[end] <= Cost(steps)
  {
    d := map[start := 0];
    var pq: seq<(nat, string)> := [(0, start)];
    prev := map[];
    pw := map[];
    settled := {};
    order := map[];
    n := 0;
    found := false;
    LocationsHas(g, start);
    while pq != []
      invariant Inv(g, start, end, d, prev, pw, pq, settled, order, n)
      invariant Relaxed(g, d, settled)
      invariant settled <= Locations(g)
      invariant !found
      decreases |Locations(g) - settled|, |pq|
    {
      var reached;
      d, prev, pq, reached, pw, settled, order, n := Step(g, start, end, d, prev, pq, pw, settled, order, n);
      if reached {
        found := true;
        return;
      }
    }
    if end in d {
      assert false;
    }
  }

  /** One pass of the `while pq` loop: pop the least pair; skip it when it
      is stale; stop, changing nothing, when it is `end`; otherwise settle it
      and relax its corridors. Each pass settles a location or shortens the
      queue. */
  method Step(g: Graph, start: string, end: string, d0: map<string, nat>, prev0: map<string, string>,
              pq0: seq<(nat, string)>, ghost pw0: map<string, nat>, ghost settled0: set<string>,
              ghost order0: map<string, nat>, ghost n0: nat)
    returns (d: map<string, nat>, prev: map<string, string>, pq: seq<(nat, string)>, reached: bool,
             ghost pw: map<string, nat>, ghost settled: set<string>, ghost order: map<string, nat>, ghost n: nat)
    requires Closed(g) && pq0 != []
    requires Inv(g, start, end, d0, prev0, pw0, pq0, settled0, order0, n0) && Relaxed(g, d0, settled0)
    requires settled0 <= Locations(g)
    ensures Inv(g, start, end, d, prev, pw, pq, settled, order, n) && Relaxed(g, d, settled)
    ensures settled <= Locations(g)
    ensures reached ==> end in d && forall steps :: IsWalk(g, start, steps) && Last(start, steps) == end ==> d[end] <= Cost(steps)
    ensures !reached ==>
      |Locations(g) - settled| < |Locations(g) - settled0| || (settled == settled0 && |pq| < |pq0|)
  {
    d, prev, pq, reached, pw, settled, order, n := d0, prev0, pq0, false, pw0, settled0, order0, n0;
    var top, rest := PopLeast(pq0);
    var (dx, x) := top;
    if dx > d0[x] {
      DropStale(d0, pq0, settled0, top, rest);
      pq := rest;
      return;
    }
    PoppedIsFinal(g, start, end, d0, prev0, pw0, pq0, settled0, order0, n0, top);
    if x == end {
      reached := true;
      return;
    }
    LocationsHas(g, x);
    FewerUnsettled(Locations(g), settled0, x);
    d, prev, pq, pw, settled, order, n := Visit(g, start, end, top, rest, d0, prev0, pw0, pq0, settled0, order0, n0);
  }

  // ------------------------------------------------------------ the map

  /** The eleven locations `initialize_graph` creates, in order. */
  const HospitalLocations: seq<string> := ["PKG", "ME", "ER", "OPC", "RAD", "LAB", "SUR", "IWA", "IWB", "PHR", "CAF"]

  /** The sixteen corridors `initialize_graph` adds, with their lengths in metres. */
  const HospitalEdges: seq<(string, string, nat)> := [
    ("PKG", "ME", 100), ("ME", "OPC", 120), ("ME", "CAF", 50), ("ME", "IWA", 150),
    ("ER", "RAD", 60), ("ER", "SUR", 90), ("OPC", "LAB", 70), ("OPC", "PHR", 80),
    ("RAD", "LAB", 40), ("RAD", "IWA", 110), ("RAD", "IWB", 130), ("LAB", "PHR", 50),
    ("IWA", "IWB", 80), ("IWA", "SUR", 100), ("IWB", "SUR", 70), ("CAF", "IWA", 140)]

  /** `end` can be reached from `start`. */
  ghost predicate Reachable(g: Graph, start: string, end: string)
  {
    exists steps :: IsWalk(g, start, steps) && Last(start, steps) == end
  }

  /** `path` lists the locations of a walk from `start` to `end` of total
      weight `dist`, and no walk between them is shorter. */
  ghost predicate ShortestRoute(g: Graph, start: string, end: string, path: seq<string>, dist: nat)
  {
    && (exists steps :: IsWalk(g, start, steps) && Last(start, steps) == end
                        && Cost(steps) == dist && path == Nodes(start, steps))
    && (forall steps :: IsWalk(g, start, steps) && Last(start, steps) == end ==> dist <= Cost(steps))
  }

  /** Some corridor leads from `u` to `v`. */
  ghost predicate Adjacent(g: Graph, u: string, v: string)
  {
    exists w :: Edge(g, u, v, w)
  }

  /** A shortest route starts at `start`, ends at `end`, and each pair of
      consecutive locations on it is joined by a corridor. */
  lemma ShortestRouteShape(g: Graph, start: string, end: string, path: seq<string>, dist: nat)
    requires ShortestRoute(g, start, end, path, dist)
    ensures |path| > 0 && path[0] == start && path[|path| - 1] == end
    ensures forall i :: 0 <= i < |path| - 1 ==> Adjacent(g, path[i], path[i + 1])
  {
    var steps :| IsWalk(g, start, steps) && Last(start, steps) == end && Cost(steps) == dist && path == Nodes(start, steps);
    forall i | 0 <= i < |path| - 1 ensures Adjacent(g, path[i], path[i + 1]) {
      WalkNodesAreEdges(g, start, steps, i);
    }
  }

  /** The response of `find_path`, without the display names and the time estimate. */
  datatype Route = Route(distance: nat, path: seq<string>, valid: bool)

  /** The module-level `hospital_graph`. */
  class HospitalMap {
    var graph: Graph

    ghost predicate Valid()
      reads this
    {
      Closed(graph) && Symmetric(graph)
    }

    constructor()
      ensures Valid() && graph == []
    {
      graph := [];
    }

    /** `add_vertex(hospital_graph, v)`. */
    method AddVertex(v: string)
      requires Valid()
      modifies this
      ensures Valid() && graph == WithVertex(old(graph), v)
    {
      WithVertexKeepsShape(graph, v);
      if !Has(graph, v) {
        graph := graph + [(v, [])];
      }
    }

    /** `add_edge(hospital_graph, u, v, w)`: two appends, in place. */
    method AddEdge(u: string, v: string, w: nat)
      requires Valid()
      modifies this
      ensures Valid() && graph == WithEdge(old(graph), u, v, w)
    {
      WithEdgeClosed(graph, u, v, w);
      WithEdgeSymmetric(graph, u, v, w);
      if Has(graph, u) && Has(graph, v) {
        graph := Put(graph, u, Get(graph, u) + [(v, w)]);
        graph := Put(graph, v, Get(graph, v) + [(u, w)]);
      }
    }

    /** `for loc in locations: add_vertex(hospital_graph, loc)`. */
    method AddVertices(locations: seq<string>)
      requires Valid()
      modifies this
      ensures Valid()
      ensures forall k :: Has(graph, k) <==> Has(old(graph), k) || k in locations
      ensures forall a, b, c :: Edge(graph, a, b, c) <==> Edge(old(graph), a, b, c)
    {
      for i := 0 to |locations|
        invariant Valid()
        invariant forall k :: Has(graph, k) <==> Has(old(graph), k) || k in locations[..i]
        invariant forall a, b, c :: Edge(graph, a, b, c) <==> Edge(old(graph), a, b, c)
      {
        AddVertex(locations[i]);
        assert locations[..i + 1] == locations[..i] + [locations[i]];
      }
    }

    /** `for loc1, loc2, dist in edges: add_edge(hospital_graph, loc1, loc2, dist)`:
        the edges afterwards are the old ones plus each listed corridor whose
        ends are both locations, in both directions, and no other. */
    method AddEdges(edges: seq<(string, string, nat)>)
      requires Valid()
      modifies this
      ensures Valid()
      ensures forall k :: Has(graph, k) <==> Has(old(graph), k)
      ensures forall a: string, b: string, c: nat :: Edge(graph, a, b, c) <==> Edge(old(graph), a, b, c) || Listed(old(graph), edges, |edges|, a, b, c)
      ensures forall j :: 0 <= j < |edges| && Has(graph, edges[j].0) && Has(graph, edges[j].1) ==>
        Edge(graph, edges[j].0, edges[j].1, edges[j].2) && Edge(graph, edges[j].1, edges[j].0, edges[j].2)
    {
      for i := 0 to |edges|
        invariant Valid()
        invariant forall k :: Has(graph, k) <==> Has(old(graph), k)
        invariant AddedSoFar(old(graph), graph, edges, i)
      {
        ghost var before := graph;
        AddEdge(edges[i].0, edges[i].1, edges[i].2);
        AddedStep(old(graph), before, edges, i);
      }
      AddedAll(old(graph), graph, edges);
    }

    /** `initialize_graph`: the eleven locations, then the sixteen corridors
        in both directions, and no other edge. */
    method Initialize()
      modifies this
      ensures Valid()
      ensures forall k :: Has(graph, k) <==> k in HospitalLocations
      ensures forall a: string, b: string, c: nat :: Edge(graph, a, b, c) <==> Corridor(HospitalEdges, a, b, c)
      ensures forall j :: 0 <= j < |HospitalEdges| ==>
        Edge(graph, HospitalEdges[j].0, HospitalEdges[j].1, HospitalEdges[j].2)
        && Edge(graph, HospitalEdges[j].1, HospitalEdges[j].0, HospitalEdges[j].2)
    {
      graph := [];
      AddVertices(HospitalLocations);
      EdgeEndsAreLocations();
      ListedAll(graph, HospitalEdges);
      AddEdges(HospitalEdges);
    }

    /** `find_path`: the ids are stripped and upper-cased; an unknown start
        or end is a 400; equal ends give the one-location route without
        searching; otherwise Dijkstra's route, or an invalid empty route when
        the end cannot be reached. */
    method FindPath(rawStart: string, rawEnd: string) returns (r: Result<Route>)
      requires Valid()
      ensures var start := Upper(Strip(rawStart));
        !Has(graph, start) ==> r == Err(BadRequest, "Invalid start location: " + start)
      ensures var start, end := Upper(Strip(rawStart)), Upper(Strip(rawEnd));
        Has(graph, start) && !Has(graph, end) ==> r == Err(BadRequest, "Invalid end location: " + end)
      ensures var start, end := Upper(Strip(rawStart)), Upper(Strip(rawEnd));
        Has(graph, start) && Has(graph, end) && start == end ==> r == Ok(Route(0, [start], true))
      ensures var start, end := Upper(Strip(rawStart)), Upper(Strip(rawEnd));
        Has(graph, start) && Has(graph, end) && start != end ==>
          && r.Ok?
          && (r.value.valid <==> Reachable(graph, start, end))
          && (!r.value.valid ==> r.value == Route(0, [], false))
          && (r.value.valid ==> ShortestRoute(graph, start, end, r.value.path, r.value.distance))
    {
      var start := Upper(Strip(rawStart));
      var end := Upper(Strip(rawEnd));
      if !Has(graph, start) {
        return Err(BadRequest, "Invalid start location: " + start);
      }
      if !Has(graph, end) {
        return Err(BadRequest, "Invalid end location: " + end);
      }
      if start == end {
        return Ok(Route(0, [start], true));
      }
      var dist, path := Dijkstra(graph, start, end);
      if dist.None? || path == [] {
        return Ok(Route(0, [], false));
      }
      r := Ok(Route(dist.value, path, true));
    }
  }

  /** `(a, b, c)` or its reverse is one of `edges`. */
  ghost predicate Corridor(edges: seq<(string, string, nat)>, a: string, b: string, c: nat)
  {
    exists j :: 0 <= j < |edges| && (edges[j] == (a, b, c) || edges[j] == (b, a, c))
  }

  /** `(a, b, c)` or its reverse is one of the first `n` of `edges` whose
      ends are both locations of `g`: an edge `add_edge` adds. */
  ghost predicate Listed(g: Graph, edges: seq<(string, string, nat)>, n: int, a: string, b: string, c: nat)
  {
    exists j :: 0 <= j < n && j < |edges| && Has(g, edges[j].0) && Has(g, edges[j].1)
                && (edges[j] == (a, b, c) || edges[j] == (b, a, c))
  }

  /** One more listed corridor adds exactly that corridor, in both directions,
      when its ends are locations. */
  lemma ListedNext(g: Graph, edges: seq<(string, string, nat)>, i: nat)
    requires i < |edges|
    ensures forall a: string, b: string, c: nat :: Listed(g, edges, i + 1, a, b, c) <==>
      Listed(g, edges, i, a, b, c)
      || (Has(g, edges[i].0) && Has(g, edges[i].1)
          && ((a, b, c) == (edges[i].0, edges[i].1, edges[i].2) || (a, b, c) == (edges[i].1, edges[i].0, edges[i].2)))
  {
    forall a: string, b: string, c: nat | Listed(g, edges, i + 1, a, b, c) && !Listed(g, edges, i, a, b, c)
      ensures Has(g, edges[i].0) && Has(g, edges[i].1)
              && ((a, b, c) == (edges[i].0, edges[i].1, edges[i].2) || (a, b, c) == (edges[i].1, edges[i].0, edges[i].2))
    {
      var j :| 0 <= j < i + 1 && j < |edges| && Has(g, edges[j].0) && Has(g, edges[j].1)
               && (edges[j] == (a, b, c) || edges[j] == (b, a, c));
      assert j == i;
    }
  }

  /** When every corridor's ends are locations, all of them are added. */
  lemma ListedAll(g: Graph, edges: seq<(string, string, nat)>)
    requires forall j :: 0 <= j < |edges| ==> Has(g, edges[j].0) && Has(g, edges[j].1)
    ensures forall a: string, b: string, c: nat :: Listed(g, edges, |edges|, a, b, c) <==> Corridor(edges, a, b, c)
  {
    forall a: string, b: string, c: nat | Corridor(edges, a, b, c) ensures Listed(g, edges, |edges|, a, b, c) {
      var j :| 0 <= j < |edges| && (edges[j] == (a, b, c) || edges[j] == (b, a, c));
      assert Has(g, edges[j].0) && Has(g, edges[j].1);
    }
  }

  /** After the first `n` corridors of `edges`, `g` has the edges of `g0` and
      the listed ones that `add_edge` adds, and no other. */
  ghost predicate AddedSoFar(g0: Graph, g: Graph, edges: seq<(string, string, nat)>, n: int)
  {
    forall a: string, b: string, c: nat :: Edge(g, a, b, c) <==> Edge(g0, a, b, c) || Listed(g0, edges, n, a, b, c)
  }

  /** Adding corridor `i` extends the edges by exactly that corridor. */
  lemma AddedStep(g0: Graph, g: Graph, edges: seq<(string, string, nat)>, i: nat)
    requires i < |edges| && UniqueKeys(g)
    requires forall k :: Has(g, k) <==> Has(g0, k)
    requires AddedSoFar(g0, g, edges, i)
    ensures AddedSoFar(g0, WithEdge(g, edges[i].0, edges[i].1, edges[i].2), edges, i + 1)
  {
    WithEdgeEdges(g, edges[i].0, edges[i].1, edges[i].2);
    ListedNext(g0, edges, i);
  }

  /** Every listed corridor with both ends present is among the edges. */
  lemma AddedAll(g0: Graph, g: Graph, edges: seq<(string, string, nat)>)
    requires forall k :: Has(g, k) <==> Has(g0, k)
    requires AddedSoFar(g0, g, edges, |edges|)
    ensures forall j :: 0 <= j < |edges| && Has(g, edges[j].0) && Has(g, edges[j].1) ==>
      Edge(g, edges[j].0, edges[j].1, edges[j].2) && Edge(g, edges[j].1, edges[j].0, edges[j].2)
  {
    forall j | 0 <= j < |edges| && Has(g, edges[j].0) && Has(g, edges[j].1)
      ensures Edge(g, edges[j].0, edges[j].1, edges[j].2) && Edge(g, edges[j].1, edges[j].0, edges[j].2)
    {
      assert Listed(g0, edges, |edges|, edges[j].0, edges[j].1, edges[j].2);
      assert Listed(g0, edges, |edges|, edges[j].1, edges[j].0, edges[j].2);
    }
  }

  /** Every corridor joins two of the eleven locations. */
  lemma EdgeEndsAreLocations()
    ensures forall j :: 0 <= j < |HospitalEdges| ==>
      HospitalEdges[j].0 in HospitalLocations && HospitalEdges[j].1 in HospitalLocations
  {
  }
}
