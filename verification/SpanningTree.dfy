// Prim's minimal spanning tree (data_structures/graph.h, class msTreeType).
module SpanningTree {
  import opened Base
  import opened Graph

  // An undirected edge, written with its smaller end first.
  datatype Edge = Edge(a: nat, b: nat)

  ghost function Link(x: nat, y: nat): Edge { if x < y then Edge(x, y) else Edge(y, x) }

  ghost predicate EdgesBelow(n: nat, X: set<Edge>) { forall e | e in X :: e.a < e.b < n }

  ghost predicate Symmetric(g: Weights) {
    Square(g, |g|) && forall i, j | 0 <= i < |g| && 0 <= j < |g| :: g[i][j] == g[j][i]
  }

  ghost function Sum(g: Weights, X: set<Edge>): real
    requires Square(g, |g|) && EdgesBelow(|g|, X)
  {
    if X == {} then 0.0 else
      var e :| e in X;
      g[e.a][e.b] + Sum(g, X - {e})
  }

  lemma {:induction false} SumRemove(g: Weights, X: set<Edge>, e: Edge)
    requires Square(g, |g|) && EdgesBelow(|g|, X) && e in X
    ensures Sum(g, X) == g[e.a][e.b] + Sum(g, X - {e})
    decreases |X|
  {
    var f :| f in X && Sum(g, X) == g[f.a][f.b] + Sum(g, X - {f});
    if f != e {
      SumRemove(g, X - {f}, e);
      SumRemove(g, X - {e}, f);
      assert X - {f} - {e} == X - {e} - {f};
    }
  }

  // ---- connectivity

  ghost predicate Walk(X: set<Edge>, p: seq<nat>, u: nat, v: nat) {
    && p != [] && p[0] == u && p[|p| - 1] == v
    && forall i | 0 <= i < |p| - 1 :: p[i] != p[i + 1] && Link(p[i], p[i + 1]) in X
  }

  ghost predicate Conn(X: set<Edge>, u: nat, v: nat) { exists p :: Walk(X, p, u, v) }

  lemma ConnSelf(X: set<Edge>, u: nat)
    ensures Conn(X, u, u)
  {
    assert Walk(X, [u], u, u);
  }

  lemma ConnEdge(X: set<Edge>, u: nat, v: nat)
    requires u != v && Link(u, v) in X
    ensures Conn(X, u, v)
  {
    assert Walk(X, [u, v], u, v);
  }

  lemma ConnTrans(X: set<Edge>, u: nat, v: nat, w: nat)
    requires Conn(X, u, v) && Conn(X, v, w)
    ensures Conn(X, u, w)
  {
    var p :| Walk(X, p, u, v);
    var q :| Walk(X, q, v, w);
    var r := p[..|p| - 1] + q;
    assert r[0] == u && r[|r| - 1] == w;
    forall i | 0 <= i < |r| - 1 ensures r[i] != r[i + 1] && Link(r[i], r[i + 1]) in X {
      if i < |p| - 1 {
        assert r[i] == p[i] && r[i + 1] == p[i + 1];
      } else {
        var k := i - (|p| - 1);
        assert r[i] == q[k] && r[i + 1] == q[k + 1];
      }
    }
    assert Walk(X, r, u, w);
  }

  lemma {:induction false} ConnSym(X: set<Edge>, p: seq<nat>, u: nat, v: nat)
    requires Walk(X, p, u, v)
    ensures Conn(X, v, u)
    decreases |p|
  {
    if |p| == 1 {
      ConnSelf(X, u);
    } else {
      assert Walk(X, p[1..], p[1], v);
      ConnSym(X, p[1..], p[1], v);
      assert Link(p[0], p[1]) == Link(p[1], p[0]);
      ConnEdge(X, p[1], p[0]);
      ConnTrans(X, v, p[1], u);
    }
  }

  lemma ConnSub(X: set<Edge>, Y: set<Edge>, u: nat, v: nat)
    requires Conn(X, u, v) && X <= Y
    ensures Conn(Y, u, v)
  {
    var p :| Walk(X, p, u, v);
    assert Walk(Y, p, u, v);
  }

  // n - 1 edges that connect n vertices.
  ghost predicate Spanning(n: nat, X: set<Edge>) {
    && EdgesBelow(n, X) && |X| == n - 1
    && forall u: nat, v: nat | u < n && v < n :: Conn(X, u, v)
  }

  ghost predicate MinimalTree(g: Weights, X: set<Edge>)
    requires Square(g, |g|)
  {
    Spanning(|g|, X) && forall Y | Spanning(|g|, Y) :: Sum(g, X) <= Sum(g, Y)
  }

  ghost function RealEdges(g: Weights): set<Edge>
    requires Square(g, |g|)
  {
    set a: nat, b: nat | a < b < |g| && g[a][b] < DBL_MAX :: Edge(a, b)
  }

  ghost predicate Connected(g: Weights, s: nat)
    requires Square(g, |g|)
  {
    forall v: nat | v < |g| :: Conn(RealEdges(g), s, v)
  }

  // ---- the exchange argument

  // A walk that leaves S and never comes back after position i.
  lemma {:induction false} LastInside(S: set<nat>, p: seq<nat>) returns (i: nat)
    requires |p| > 0 && p[0] in S && p[|p| - 1] !in S
    ensures i + 1 < |p| && p[i] in S && forall k | i < k < |p| :: p[k] !in S
    decreases |p|
  {
    if p[|p| - 2] in S {
      i := |p| - 2;
    } else {
      i := LastInside(S, p[..|p| - 1]);
    }
  }

  // Replacing f by a set of edges that still joins its ends keeps every connection.
  lemma {:induction false} Reroute(Y: set<Edge>, Z: set<Edge>, f: Edge, p: seq<nat>, u: nat, v: nat)
    requires Walk(Y, p, u, v) && Y - {f} <= Z && Conn(Z, f.a, f.b) && Conn(Z, f.b, f.a)
    ensures Conn(Z, u, v)
    decreases |p|
  {
    if |p| == 1 {
      ConnSelf(Z, u);
    } else {
      assert Walk(Y, p[1..], p[1], v);
      Reroute(Y, Z, f, p[1..], p[1], v);
      if Link(u, p[1]) in Z { ConnEdge(Z, u, p[1]); }
      ConnTrans(Z, u, p[1], v);
    }
  }

  // The light edge e leaving S can be swapped into any spanning tree that contains T.
  ghost predicate Inside(S: set<nat>, T: set<Edge>) { forall e | e in T :: e.a in S && e.b in S }

  ghost predicate JoinsAll(T: set<Edge>, s: nat, S: set<nat>) { forall v | v in S :: Conn(T, s, v) }

  ghost predicate LightestOut(g: Weights, S: set<nat>, u: nat, v: nat)
    requires Square(g, |g|)
  {
    && u < |g| && v < |g| && u in S && v !in S
    && forall x: nat, y: nat | x < |g| && y < |g| && x in S && y !in S :: g[u][v] <= g[x][y]
  }

  lemma JoinedPair(T: set<Edge>, s: nat, S: set<nat>, x: nat, y: nat)
    requires JoinsAll(T, s, S) && x in S && y in S
    ensures Conn(T, x, y)
  {
    assert Conn(T, s, x) && Conn(T, s, y);
    var p :| Walk(T, p, s, x);
    ConnSym(T, p, s, x);
    ConnTrans(T, x, s, y);
  }

  // The crossing edge of Y on its walk from u to v, and what of that walk survives without it.
  lemma Crossing(S: set<nat>, Y: set<Edge>, u: nat, v: nat) returns (x: nat, y: nat)
    requires Conn(Y, u, v) && u in S && v !in S
    ensures x in S && y !in S && Link(x, y) in Y && Conn(Y - {Link(x, y)}, y, v)
  {
    var p :| Walk(Y, p, u, v);
    var i := LastInside(S, p);
    x, y := p[i], p[i + 1];
    var q, Z := p[i + 1..], Y - {Link(x, y)};
    forall k | 0 <= k < |q| - 1 ensures q[k] != q[k + 1] && Link(q[k], q[k + 1]) in Z {
      assert q[k] == p[i + 1 + k] && q[k + 1] == p[i + 2 + k];
    }
    assert Walk(Z, q, y, v);
  }

  lemma Exchange(g: Weights, s: nat, S: set<nat>, T: set<Edge>, u: nat, v: nat, Y: set<Edge>) returns (Z: set<Edge>)
    requires Symmetric(g) && Inside(S, T) && JoinsAll(T, s, S) && LightestOut(g, S, u, v)
    requires Spanning(|g|, Y) && T <= Y
    ensures Spanning(|g|, Z) && T + {Link(u, v)} <= Z && Sum(g, Z) <= Sum(g, Y)
  {
    var e := Link(u, v);
    if e in Y { return Y; }
    var x, y := Crossing(S, Y, u, v);
    var f := Link(x, y);
    Z := Y - {f} + {e};
    assert f !in T;
    assert Sum(g, Z) <= Sum(g, Y) by {
      SumRemove(g, Y, f);
      SumRemove(g, Z, e);
      assert Z - {e} == Y - {f};
    }
    assert Conn(Z, x, y) by {
      JoinedPair(T, s, S, x, u);
      ConnSub(T, Z, x, u);
      ConnEdge(Z, u, v);
      ConnSub(Y - {f}, Z, y, v);
      var p :| Walk(Z, p, y, v);
      ConnSym(Z, p, y, v);
      ConnTrans(Z, x, u, v);
      ConnTrans(Z, x, v, y);
    }
    var q :| Walk(Z, q, x, y);
    ConnSym(Z, q, x, y);
    forall w: nat, z: nat | w < |g| && z < |g| ensures Conn(Z, w, z) {
      assert Conn(Y, w, z);
      var p :| Walk(Y, p, w, z);
      Reroute(Y, Z, f, p, w, z);
    }
  }

  // ---- Prim's invariant

  // T can still be completed to a tree as light as any other.
  ghost predicate Promising(g: Weights, T: set<Edge>)
    requires Square(g, |g|)
  {
    forall X | Spanning(|g|, X) :: exists Y :: Extends(g, T, X, Y)
  }

  ghost predicate Extends(g: Weights, T: set<Edge>, X: set<Edge>, Y: set<Edge>)
    requires Square(g, |g|) && Spanning(|g|, X)
  {
    Spanning(|g|, Y) && T <= Y && Sum(g, Y) <= Sum(g, X)
  }

  lemma PromiseStart(g: Weights)
    requires Square(g, |g|)
    ensures Promising(g, {})
  {
    forall X | Spanning(|g|, X) ensures exists Y :: Extends(g, {}, X, Y) {
      assert Extends(g, {}, X, X);
    }
  }

  lemma PromiseStep(g: Weights, s: nat, S: set<nat>, T: set<Edge>, u: nat, v: nat)
    requires Symmetric(g) && Inside(S, T) && JoinsAll(T, s, S) && LightestOut(g, S, u, v)
    requires Promising(g, T)
    ensures Promising(g, T + {Link(u, v)})
  {
    hide Inside, JoinsAll, LightestOut, Spanning;
    forall X | Spanning(|g|, X) ensures exists Y :: Extends(g, T + {Link(u, v)}, X, Y) {
      var Y :| Extends(g, T, X, Y);
      var Z := Exchange(g, s, S, T, u, v, Y);
      assert Extends(g, T + {Link(u, v)}, X, Z);
    }
  }

  // The tree edges as the arrays show them: v hangs from edges[v], with its own weight.
  ghost predicate Hangs(g: Weights, S: set<nat>, T: set<Edge>, edges: seq<nat>, ew: seq<real>, rank: seq<nat>, v: nat)
    requires Square(g, |g|) && |edges| == |ew| == |rank| == |g| && v < |g|
  {
    && edges[v] < |g| && edges[v] in S && edges[v] != v && ew[v] == g[edges[v]][v]
    && Link(edges[v], v) in T && rank[edges[v]] < rank[v] < |S|
  }

  ghost predicate Parents(g: Weights, s: nat, S: set<nat>, T: set<Edge>, edges: seq<nat>, ew: seq<real>, rank: seq<nat>)
    requires Square(g, |g|)
  {
    && |edges| == |ew| == |rank| == |g| && s in S && (forall v | v in S :: v < |g|)
    && edges[s] == s && rank[s] < |S|
    && AllHang(g, s, S, T, edges, ew, rank) && AllHung(s, S, T, edges)
  }

  ghost predicate AllHang(g: Weights, s: nat, S: set<nat>, T: set<Edge>, edges: seq<nat>, ew: seq<real>, rank: seq<nat>)
    requires Square(g, |g|) && |edges| == |ew| == |rank| == |g| && forall v | v in S :: v < |g|
  {
    forall v | v in S && v != s :: Hangs(g, S, T, edges, ew, rank, v)
  }

  ghost predicate AllHung(s: nat, S: set<nat>, T: set<Edge>, edges: seq<nat>)
    requires forall v | v in S :: v < |edges|
  {
    forall e | e in T :: Hung(s, S, edges, e)
  }

  ghost predicate Hung(s: nat, S: set<nat>, edges: seq<nat>, e: Edge)
    requires forall v | v in S :: v < |edges|
  {
    exists v :: v in S && v != s && e == Link(edges[v], v)
  }

  ghost predicate Grown(g: Weights, s: nat, S: set<nat>, T: set<Edge>)
    requires Square(g, |g|)
  {
    && Inside(S, T) && JoinsAll(T, s, S) && EdgesBelow(|g|, T) && |T| + 1 == |S|
    && T <= RealEdges(g) && Promising(g, T)
  }

  // Before round i, i + 1 vertices hang in the tree.
  ghost predicate PrimInv(g: Weights, s: nat, mstv: seq<bool>, edges: seq<nat>, ew: seq<real>,
                          T: set<Edge>, rank: seq<nat>, i: nat)
    requires Square(g, |g|) && |mstv| == |g|
  {
    && Grown(g, s, FoundSet(mstv), T) && Parents(g, s, FoundSet(mstv), T, edges, ew, rank)
    && |FoundSet(mstv)| == i + 1
  }

  lemma PrimStart(g: Weights, s: nat, mstv: seq<bool>, edges: seq<nat>, ew: seq<real>, rank: seq<nat>)
    requires Square(g, |g|) && |mstv| == |edges| == |ew| == |rank| == |g| && s < |g|
    requires forall k: nat | k < |g| :: mstv[k] <==> k == s
    requires edges[s] == s && rank[s] == 0
    ensures PrimInv(g, s, mstv, edges, ew, {}, rank, 0)
  {
    assert FoundSet(mstv) == {s};
    ConnSelf({}, s);
    PromiseStart(g);
  }

  lemma GrowTree(g: Weights, s: nat, S: set<nat>, T: set<Edge>, u: nat, v: nat)
    requires Symmetric(g) && Grown(g, s, S, T) && LightestOut(g, S, u, v) && g[u][v] < DBL_MAX
    ensures Grown(g, s, S + {v}, T + {Link(u, v)})
  {
    PromiseStep(g, s, S, T, u, v);
    GrowJoins(s, S, T, u, v);
    GrowEdges(|g|, S, T, u, v);
    RealLink(g, u, v);
    hide *;
  }

  lemma RealLink(g: Weights, u: nat, v: nat)
    requires Symmetric(g) && u < |g| && v < |g| && u != v && g[u][v] < DBL_MAX
    ensures Link(u, v) in RealEdges(g)
  {}

  lemma GrowEdges(n: nat, S: set<nat>, T: set<Edge>, u: nat, v: nat)
    requires Inside(S, T) && EdgesBelow(n, T) && u < n && v < n && u in S && v !in S
    ensures Inside(S + {v}, T + {Link(u, v)}) && EdgesBelow(n, T + {Link(u, v)})
    ensures |T + {Link(u, v)}| == |T| + 1
  {
    assert Link(u, v) !in T;
  }

  lemma GrowJoins(s: nat, S: set<nat>, T: set<Edge>, u: nat, v: nat)
    requires JoinsAll(T, s, S) && u in S && v !in S
    ensures JoinsAll(T + {Link(u, v)}, s, S + {v})
  {
    hide Conn;
    var T' := T + {Link(u, v)};
    forall w | w in S + {v} ensures Conn(T', s, w) {
      if w != v {
        ConnSub(T, T', s, w);
      } else {
        ConnSub(T, T', s, u);
        ConnEdge(T', u, v);
        ConnTrans(T', s, u, v);
      }
    }
  }

  lemma HangsStep(g: Weights,
                  S: set<nat>, T: set<Edge>, edges: seq<nat>, ew: seq<real>, rank: seq<nat>, w: nat, u: nat, v: nat)
    requires Square(g, |g|) && |edges| == |ew| == |rank| == |g| && w < |g| && v < |g| && u < |g|
    requires Hangs(g, S, T, edges, ew, rank, w) && v !in S && w != v
    ensures Hangs(g, S + {v}, T + {Link(u, v)}, edges[v := u], ew[v := g[u][v]], rank[v := |S|], w)
  {}

  lemma GrowParents(g: Weights, s: nat,
                    S: set<nat>, T: set<Edge>, edges: seq<nat>, ew: seq<real>, rank: seq<nat>, u: nat, v: nat)
    requires Square(g, |g|) && Parents(g, s, S, T, edges, ew, rank) && u in S && v !in S && v < |g|
    ensures Parents(g, s, S + {v}, T + {Link(u, v)}, edges[v := u], ew[v := g[u][v]], rank[v := |S|])
  {
    hide AllHang, AllHung, Link;
    RankBelow(g, s, S, T, edges, ew, rank, u);
    AllHangStep(g, s, S, T, edges, ew, rank, u, v);
    AllHungStep(s, S, T, edges, u, v);
  }

  lemma RankBelow(g: Weights, s: nat, S: set<nat>, T: set<Edge>, edges: seq<nat>, ew: seq<real>, rank: seq<nat>, u: nat)
    requires Square(g, |g|) && Parents(g, s, S, T, edges, ew, rank) && u in S
    ensures u < |g| == |rank| && rank[u] < |S|
  {
    if u != s { assert Hangs(g, S, T, edges, ew, rank, u); }
  }

  lemma AllHangStep(g: Weights, s: nat,
                    S: set<nat>, T: set<Edge>, edges: seq<nat>, ew: seq<real>, rank: seq<nat>, u: nat, v: nat)
    requires Square(g, |g|) && |edges| == |ew| == |rank| == |g| && (forall w | w in S :: w < |g|)
    requires AllHang(g, s, S, T, edges, ew, rank) && u in S && v !in S && v < |g| && rank[u] < |S|
    ensures AllHang(g, s, S + {v}, T + {Link(u, v)}, edges[v := u], ew[v := g[u][v]], rank[v := |S|])
  {
    var S', T', edges', ew', rank' := S + {v}, T + {Link(u, v)}, edges[v := u], ew[v := g[u][v]], rank[v := |S|];
    NewHangs(g, S, T, edges, ew, rank, u, v);
    hide Hangs, Link;
    forall w | w in S' && w != s ensures Hangs(g, S', T', edges', ew', rank', w) {
      if w != v { HangsStep(g, S, T, edges, ew, rank, w, u, v); }
    }
  }

  lemma AllHungStep(s: nat, S: set<nat>, T: set<Edge>, edges: seq<nat>, u: nat, v: nat)
    requires (forall w | w in S :: w < |edges|) && v < |edges| && v !in S && s in S
    requires AllHung(s, S, T, edges)
    ensures AllHung(s, S + {v}, T + {Link(u, v)}, edges[v := u])
  {
    hide Hung, Link;
    forall e | e in T + {Link(u, v)} ensures Hung(s, S + {v}, edges[v := u], e) {
      HungStep(s, S, T, edges, e, u, v);
    }
  }

  lemma NewHangs(g: Weights, S: set<nat>, T: set<Edge>, edges: seq<nat>, ew: seq<real>, rank: seq<nat>, u: nat, v: nat)
    requires Square(g, |g|) && |edges| == |ew| == |rank| == |g| && u < |g| && v < |g|
    requires u in S && v !in S && rank[u] < |S|
    ensures Hangs(g, S + {v}, T + {Link(u, v)}, edges[v := u], ew[v := g[u][v]], rank[v := |S|], v)
  {}

  lemma HungStep(s: nat, S: set<nat>, T: set<Edge>, edges: seq<nat>, e: Edge, u: nat, v: nat)
    requires (forall w | w in S :: w < |edges|) && v < |edges| && v !in S && s in S
    requires e in T + {Link(u, v)} && (e in T ==> Hung(s, S, edges, e))
    ensures Hung(s, S + {v}, edges[v := u], e)
  {
    if e in T {
      var w :| w in S && w != s && e == Link(edges[w], w);
      assert w in S + {v} && edges[v := u][w] == edges[w];
    } else {
      assert v in S + {v} && edges[v := u][v] == u;
    }
  }

  lemma PrimNext(g: Weights, s: nat, mstv: seq<bool>, edges: seq<nat>, ew: seq<real>,
                 T: set<Edge>, rank: seq<nat>, i: nat, u: nat, v: nat)
    requires Symmetric(g) && |mstv| == |g| && PrimInv(g, s, mstv, edges, ew, T, rank, i)
    requires LightestOut(g, FoundSet(mstv), u, v) && g[u][v] < DBL_MAX
    ensures PrimInv(g, s, mstv[v := true], edges[v := u], ew[v := g[u][v]], T + {Link(u, v)}, rank[v := i + 1], i + 1)
  {
    hide Grown, Hangs;
    var S := FoundSet(mstv);
    assert FoundSet(mstv[v := true]) == S + {v};
    GrowTree(g, s, S, T, u, v);
    GrowParents(g, s, S, T, edges, ew, rank, u, v);
  }

  // No light edge leaves the tree while a vertex is missing: the graph is not connected.
  lemma PrimStuck(g: Weights, s: nat, mstv: seq<bool>, edges: seq<nat>, ew: seq<real>,
                  T: set<Edge>, rank: seq<nat>, i: nat)
    requires Symmetric(g) && |mstv| == |g| && PrimInv(g, s, mstv, edges, ew, T, rank, i) && i + 1 < |g|
    requires forall x: nat, y: nat | x < |g| && y < |g| && mstv[x] && !mstv[y] :: DBL_MAX <= g[x][y]
    ensures !Connected(g, s)
  {
    hide Hangs, Hung, Promising, Walk;
    var S := FoundSet(mstv);
    assert Below(|g|) - S != {} by { SubsetCard(Below(|g|), S + (Below(|g|) - S)); }
    var t :| t in Below(|g|) - S;
    if Conn(RealEdges(g), s, t) {
      var x, y := Crossing(S, RealEdges(g), s, t);
      assert false;
    }
  }

  ghost function Climb(edges: seq<nat>, v: nat, k: nat): nat
    decreases k
  {
    if k == 0 || v >= |edges| then v else Climb(edges, edges[v], k - 1)
  }

  // Every vertex climbs to the root over parent links.
  ghost predicate Rooted(s: nat, edges: seq<nat>) {
    forall v: nat | v < |edges| :: Climbs(edges, v, s)
  }

  ghost predicate Climbs(edges: seq<nat>, v: nat, s: nat) { exists k :: Climb(edges, v, k) == s }

  ghost function ParentEdges(s: nat, edges: seq<nat>): set<Edge> {
    set v | v in Below(|edges|) && v != s :: Link(edges[v], v)
  }

  lemma {:induction false} ClimbsToRoot(g: Weights, s: nat,
                                        S: set<nat>, T: set<Edge>, edges: seq<nat>, ew: seq<real>, rank: seq<nat>,
                                        v: nat) returns (k: nat)
    requires Square(g, |g|) && Parents(g, s, S, T, edges, ew, rank) && v in S
    ensures Climb(edges, v, k) == s
    decreases rank[v]
  {
    if v == s { return 0; }
    assert Hangs(g, S, T, edges, ew, rank, v);
    k := ClimbsToRoot(g, s, S, T, edges, ew, rank, edges[v]);
    k := k + 1;
  }

  // What the arrays hold when every round found an edge.
  ghost predicate TreeBuilt(g: Weights, s: nat, edges: seq<nat>, ew: seq<real>)
    requires Square(g, |g|)
  {
    && |edges| == |ew| == |g| && s < |g| && edges[s] == s && Rooted(s, edges)
    && MinimalTree(g, ParentEdges(s, edges)) && ParentEdges(s, edges) <= RealEdges(g)
    && forall v: nat | v < |g| && v != s :: edges[v] < |g| && edges[v] != v && ew[v] == g[edges[v]][v]
  }

  lemma PrimEnd(g: Weights, s: nat, mstv: seq<bool>, edges: seq<nat>, ew: seq<real>, T: set<Edge>, rank: seq<nat>)
    requires Symmetric(g) && |mstv| == |g| && |g| > 0 && PrimInv(g, s, mstv, edges, ew, T, rank, |g| - 1)
    ensures TreeBuilt(g, s, edges, ew) && Connected(g, s)
  {
    hide Grown, Parents, MinimalTree, ParentEdges;
    var S := FoundSet(mstv);
    SubsetCard(S, Below(|g|));
    TreeEdges(g, s, S, T, edges, ew, rank);
    TreeMinimal(g, s, S, T);
    TreeShape(g, s, S, T, edges, ew, rank);
  }

  lemma TreeShape(g: Weights, s: nat, S: set<nat>, T: set<Edge>, edges: seq<nat>, ew: seq<real>, rank: seq<nat>)
    requires Square(g, |g|) && Parents(g, s, S, T, edges, ew, rank) && S == Below(|g|)
    ensures |edges| == |ew| == |g| && s < |g| && edges[s] == s && Rooted(s, edges)
    ensures forall v: nat | v < |g| && v != s :: edges[v] < |g| && edges[v] != v && ew[v] == g[edges[v]][v]
  {
    forall v: nat | v < |g| ensures Climbs(edges, v, s) {
      var k := ClimbsToRoot(g, s, S, T, edges, ew, rank, v);
    }
    forall v: nat | v < |g| && v != s ensures edges[v] < |g| && edges[v] != v && ew[v] == g[edges[v]][v] {
      assert Hangs(g, S, T, edges, ew, rank, v);
    }
  }

  lemma TreeEdges(g: Weights, s: nat, S: set<nat>, T: set<Edge>, edges: seq<nat>, ew: seq<real>, rank: seq<nat>)
    requires Square(g, |g|) && Parents(g, s, S, T, edges, ew, rank) && S == Below(|g|)
    ensures ParentEdges(s, edges) == T
  {
    forall e | e in ParentEdges(s, edges) ensures e in T {
      var v :| v in Below(|edges|) && v != s && e == Link(edges[v], v);
      assert Hangs(g, S, T, edges, ew, rank, v);
    }
    forall e | e in T ensures e in ParentEdges(s, edges) {
      var v :| v in S && v != s && e == Link(edges[v], v);
    }
  }

  lemma TreeMinimal(g: Weights, s: nat, S: set<nat>, T: set<Edge>)
    requires Square(g, |g|) && Grown(g, s, S, T) && S == Below(|g|)
    ensures MinimalTree(g, T) && T <= RealEdges(g) && Connected(g, s)
  {
    hide RealEdges;
    forall v: nat | v < |g| ensures Conn(RealEdges(g), s, v) {
      assert Conn(T, s, v);
      ConnSub(T, RealEdges(g), s, v);
    }
    forall u: nat, v: nat | u < |g| && v < |g| ensures Conn(T, u, v) {
      JoinedPair(T, s, S, u, v);
    }
    forall X | Spanning(|g|, X) ensures Sum(g, T) <= Sum(g, X) {
      var Y :| Extends(g, T, X, Y);
      SubsetCard(T, Y);
    }
  }

  // ---- the printed weight

  ghost function EdgesUpTo(s: nat, edges: seq<nat>, j: nat): set<Edge>
    requires j <= |edges|
  {
    set v | v in Below(j) && v != s :: Link(edges[v], v)
  }

  // Distinct vertices hang by distinct edges.
  lemma NewEdge(n: nat, s: nat, edges: seq<nat>, j: nat)
    requires |edges| == n && s < n && j < n && j != s
    requires forall v: nat | v < n && v != s :: edges[v] < n && edges[v] != v
    requires edges[s] == s && |ParentEdges(s, edges)| == n - 1
    ensures Link(edges[j], j) !in EdgesUpTo(s, edges, j)
  {
    if Link(edges[j], j) in EdgesUpTo(s, edges, j) {
      var i :| i in Below(j) && i != s && Link(edges[i], i) == Link(edges[j], j);
      var all := Below(n) - {s};
      assert ParentEdges(s, edges) == Hanging(all, edges);
      SameHanging(all, edges, i, j);
      ImageCard(all - {j}, edges);
    }
  }

  lemma SameHanging(A: set<nat>, edges: seq<nat>, i: nat, j: nat)
    requires (forall v | v in A :: v < |edges|) && i in A && j in A && i != j && Link(edges[i], i) == Link(edges[j], j)
    ensures Hanging(A - {j}, edges) == Hanging(A, edges)
  {
    hide Link;
    assert i in A - {j};
  }

  ghost function Hanging(A: set<nat>, edges: seq<nat>): set<Edge>
    requires forall v | v in A :: v < |edges|
  {
    set v | v in A :: Link(edges[v], v)
  }

  lemma {:induction false} ImageCard(A: set<nat>, edges: seq<nat>)
    requires forall v | v in A :: v < |edges|
    ensures |Hanging(A, edges)| <= |A|
    decreases |A|
  {
    if A != {} {
      var a :| a in A;
      var B := A - {a};
      ImageCard(B, edges);
      assert Hanging(A, edges) == Hanging(B, edges) + {Link(edges[a], a)};
    }
  }

  lemma SumGrows(g: Weights, s: nat, edges: seq<nat>, ew: seq<real>, j: nat)
    requires Symmetric(g) && TreeBuilt(g, s, edges, ew) && j < |g|
    requires EdgesBelow(|g|, EdgesUpTo(s, edges, j))
    ensures EdgesBelow(|g|, EdgesUpTo(s, edges, j + 1))
    ensures Sum(g, EdgesUpTo(s, edges, j + 1)) == Sum(g, EdgesUpTo(s, edges, j)) + if edges[j] != j then ew[j] else 0.0
  {
    var A, B := EdgesUpTo(s, edges, j), EdgesUpTo(s, edges, j + 1);
    assert Below(j + 1) == Below(j) + {j};
    if j == s {
      assert A == B;
    } else {
      var e := Link(edges[j], j);
      NewEdge(|g|, s, edges, j);
      assert B == A + {e};
      assert B - {e} == A;
      SumRemove(g, B, e);
    }
  }

  lemma NoEdges(g: Weights, s: nat, edges: seq<nat>, ew: seq<real>)
    requires Square(g, |g|)
    ensures EdgesUpTo(s, edges, 0) == {} && EdgesBelow(|g|, {}) && Sum(g, {}) == 0.0
  {}

  lemma AllEdges(g: Weights, s: nat, edges: seq<nat>, ew: seq<real>)
    requires Square(g, |g|) && TreeBuilt(g, s, edges, ew)
    ensures |edges| == |g| && EdgesUpTo(s, edges, |g|) == ParentEdges(s, edges)
    ensures EdgesBelow(|g|, ParentEdges(s, edges))
    ensures forall X | Spanning(|g|, X) :: Sum(g, ParentEdges(s, edges)) <= Sum(g, X)
  {}

  class MsTree {
    const gSize: nat
    const weights: array2<real>
    const edges: array<nat>
    const edgeWeights: array<real>
    var source: nat

    ghost predicate Valid()
      reads weights
    {
      && weights.Length0 == gSize && weights.Length1 == gSize
      && edges.Length == gSize && edgeWeights.Length == gSize
      && forall i, j | 0 <= i < gSize && 0 <= j < gSize :: weights[i, j] == weights[j, i]
    }

    constructor (size: nat)
      ensures gSize == size && fresh(weights) && fresh(edges) && fresh(edgeWeights)
      ensures weights.Length0 == size && weights.Length1 == size
      ensures edges.Length == size && edgeWeights.Length == size
    {
      gSize := size;
      weights := new real[size, size];
      edges := new nat[size];
      edgeWeights := new real[size];
      source := 0;
    }

    // The initial arrays: every vertex hangs from the source, which alone is in the tree.
    method InitFrom(sVertex: nat) returns (mstv: array<bool>)
      requires Valid() && sVertex < gSize
      modifies this, edges, edgeWeights
      ensures source == sVertex && fresh(mstv) && mstv.Length == gSize
      ensures forall k: nat | k < gSize :: mstv[k] <==> k == sVertex
      ensures edges[sVertex] == sVertex
    {
      source := sVertex;
      mstv := new bool[gSize];
      for j := 0 to gSize
        invariant source == sVertex
        invariant forall k | 0 <= k < j :: !mstv[k] && edges[k] == sVertex
      {
        mstv[j] := false;
        edges[j] := source;
        edgeWeights[j] := weights[source, j];
      }
      mstv[source] := true;
      edgeWeights[source] := 0.0;
    }

    // The two inner loops: a lightest edge out of the tree, or found == false when none is below DBL_MAX.
    method LightestEdge(mstv: array<bool>) returns (found: bool, startVertex: nat, endVertex: nat, minWeight: real)
      requires Valid() && mstv.Length == gSize
      ensures found ==> startVertex < gSize && endVertex < gSize && mstv[startVertex] && !mstv[endVertex]
      ensures found ==> minWeight == weights[startVertex, endVertex] < DBL_MAX
      ensures !found ==> minWeight == DBL_MAX
      ensures forall x: nat, y: nat | x < gSize && y < gSize && mstv[x] && !mstv[y] :: minWeight <= weights[x, y]
    {
      found, startVertex, endVertex, minWeight := false, 0, 0, DBL_MAX;
      for j := 0 to gSize
        invariant found ==> startVertex < gSize && endVertex < gSize && mstv[startVertex] && !mstv[endVertex]
        invariant found ==> minWeight == weights[startVertex, endVertex] < DBL_MAX
        invariant !found ==> minWeight == DBL_MAX
        invariant forall x: nat, y: nat | x < j && y < gSize && mstv[x] && !mstv[y] :: minWeight <= weights[x, y]
      {
        if mstv[j] {
          for k := 0 to gSize
            invariant found ==> startVertex < gSize && endVertex < gSize && mstv[startVertex] && !mstv[endVertex]
            invariant found ==> minWeight == weights[startVertex, endVertex] < DBL_MAX
            invariant !found ==> minWeight == DBL_MAX
            invariant forall x: nat, y: nat | x < j && y < gSize && mstv[x] && !mstv[y] :: minWeight <= weights[x, y]
            invariant forall y: nat | y < k && !mstv[y] :: minWeight <= weights[j, y]
          {
            if !mstv[k] && weights[j, k] < minWeight {
              endVertex := k;
              startVertex := j;
              minWeight := weights[j, k];
              found := true;
            }
          }
        }
      }
    }

    // `defined` is false when a round finds no edge below DBL_MAX: the C++ code then reuses the
    // vertices of an earlier round, or reads them unset. That happens exactly when the graph of
    // edges below DBL_MAX is not connected.
    method MinimalSpanning(sVertex: nat) returns (defined: bool)
      requires Valid() && sVertex < gSize
      modifies this, edges, edgeWeights
      ensures source == sVertex
      ensures defined <==> Connected(MatrixOf(weights), sVertex)
      ensures defined ==> TreeBuilt(MatrixOf(weights), sVertex, edges[..], edgeWeights[..])
    {
      hide PrimInv, TreeBuilt, Connected, FoundSet, MatrixOf;
      ghost var g := MatrixOf(weights);
      var mstv := InitFrom(sVertex);
      ghost var T: set<Edge> := {};
      ghost var rank: seq<nat> := seq(gSize, _ => 0);
      PrimStart(g, sVertex, mstv[..], edges[..], edgeWeights[..], rank);
      for i := 0 to gSize - 1
        invariant source == sVertex && fresh(mstv) && |rank| == gSize
        invariant PrimInv(g, sVertex, mstv[..], edges[..], edgeWeights[..], T, rank, i)
      {
        var found, startVertex, endVertex, minWeight := LightestEdge(mstv);
        if !found {
          PrimStuck(g, sVertex, mstv[..], edges[..], edgeWeights[..], T, rank, i);
          return false;
        }
        ghost var m, e, w := mstv[..], edges[..], edgeWeights[..];
        mstv[endVertex] := true;
        edges[endVertex] := startVertex;
        edgeWeights[endVertex] := minWeight;
        PrimNext(g, sVertex, m, e, w, T, rank, i, startVertex, endVertex);
        T, rank := T + {Link(startVertex, endVertex)}, rank[endVertex := i + 1];
        assert mstv[..] == m[endVertex := true];
        assert edges[..] == e[endVertex := startVertex];
        assert edgeWeights[..] == w[endVertex := minWeight];
      }
      PrimEnd(g, sVertex, mstv[..], edges[..], edgeWeights[..], T, rank);
      return true;
    }

    // The total that printTreeAndWeight reports is the weight of the tree.
    method TreeWeight() returns (treeWeight: real)
      requires Valid() && TreeBuilt(MatrixOf(weights), source, edges[..], edgeWeights[..])
      ensures treeWeight == Sum(MatrixOf(weights), ParentEdges(source, edges[..]))
      ensures forall X | Spanning(gSize, X) :: treeWeight <= Sum(MatrixOf(weights), X)
    {
      hide TreeBuilt, EdgesUpTo, MatrixOf, ParentEdges, Sum, Spanning, EdgesBelow;
      ghost var g := MatrixOf(weights);
      treeWeight := 0.0;
      NoEdges(g, source, edges[..], edgeWeights[..]);
      for j := 0 to gSize
        invariant EdgesBelow(gSize, EdgesUpTo(source, edges[..], j))
        invariant treeWeight == Sum(g, EdgesUpTo(source, edges[..], j))
      {
        SumGrows(g, source, edges[..], edgeWeights[..], j);
        if edges[j] != j {
          treeWeight := treeWeight + edgeWeights[j];
        }
      }
      AllEdges(g, source, edges[..], edgeWeights[..]);
    }
  }
}
