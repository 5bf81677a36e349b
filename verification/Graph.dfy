// Dijkstra's shortest paths and Prim's minimal spanning tree (data_structures/graph.h).
module Graph {
  import opened Base

  // A square weight matrix; a pair without an edge has weight DBL_MAX.
  type Weights = seq<seq<real>>

  // The largest finite double, (2^53 - 1) * 2^971.
  const DBL_MAX: real := 179769313486231570814527423731704356798070567525844996598917476803157260780028538760589558632766878171540458953514382464234321326889464182768467546703537516986049910576551282076245490090389328944075868508455133942304583236903222948165808559332123348274797826204144723168738177180919299881250404026184124858368.0

  ghost predicate Square(g: Weights, n: nat) { |g| == n && forall i | 0 <= i < n :: |g[i]| == n }

  // ---- paths

  ghost predicate IsPath(n: nat, p: seq<nat>, s: nat, t: nat) {
    p != [] && p[0] == s && p[|p| - 1] == t && forall i | 0 <= i < |p| :: p[i] < n
  }

  ghost function PathWeight(g: Weights, p: seq<nat>): real
    requires forall i | 0 <= i < |p| :: p[i] < |g|
    requires Square(g, |g|)
  {
    if |p| <= 1 then 0.0 else PathWeight(g, p[..|p| - 1]) + g[p[|p| - 2]][p[|p| - 1]]
  }

  ghost predicate NonNegative(g: Weights) {
    Square(g, |g|) && forall i, j | 0 <= i < |g| && 0 <= j < |g| :: 0.0 <= g[i][j]
  }

  // d is the weight of a lightest path from s to t.
  ghost predicate Shortest(g: Weights, s: nat, t: nat, d: real)
    requires Square(g, |g|)
  {
    && (exists p :: IsPath(|g|, p, s, t) && PathWeight(g, p) == d)
    && (forall p | IsPath(|g|, p, s, t) :: d <= PathWeight(g, p))
  }

  ghost predicate Reachable(g: Weights, s: nat, t: nat)
    requires Square(g, |g|)
  {
    exists p :: IsPath(|g|, p, s, t) && PathWeight(g, p) < DBL_MAX
  }

  ghost predicate AllReachable(g: Weights, s: nat)
    requires Square(g, |g|)
  {
    forall t: nat | t < |g| :: Reachable(g, s, t)
  }

  // d holds the weight of a lightest path to every vertex.
  ghost predicate AllShortest(g: Weights, s: nat, d: seq<real>)
    requires Square(g, |g|) && |d| == |g|
  {
    forall t: nat | t < |g| :: Shortest(g, s, t, d[t])
  }

  // The state between two rounds: `found` vertices have their final distance, the others the
  // best distance over one last edge out of `found`.
  ghost predicate Frontier(g: Weights, s: nat, found: set<nat>, d: seq<real>)
    requires Square(g, |g|)
  {
    && |d| == |g| && s in found && s < |g| && (forall v | v in found :: v < |g|)
    && (forall v | v in found :: Shortest(g, s, v, d[v]))
    && (forall v: nat | v < |g| && v !in found :: OneEdge(g, s, found, d, v))
  }

  ghost predicate OneEdge(g: Weights, s: nat, found: set<nat>, d: seq<real>, v: nat)
    requires Square(g, |g|) && |d| == |g| && v < |g| && (forall u | u in found :: u < |g|)
  {
    && (exists u :: u in found && d[v] == d[u] + g[u][v])
    && (forall u | u in found :: d[v] <= d[u] + g[u][v])
  }

  // Every path to a vertex outside `found` costs at least the best frontier distance.
  lemma {:induction false} LeavesFrontier(g: Weights, s: nat,
                                          found: set<nat>, d: seq<real>, best: real, p: seq<nat>, t: nat)
    requires NonNegative(g) && Frontier(g, s, found, d)
    requires forall v: nat | v < |g| && v !in found :: best <= d[v]
    requires IsPath(|g|, p, s, t) && t !in found
    ensures best <= PathWeight(g, p)
  {
    assert |p| > 1;
    var q, u := p[..|p| - 1], p[|p| - 2];
    assert IsPath(|g|, q, s, u) && PathWeight(g, p) == PathWeight(g, q) + g[u][t];
    if u in found {
      hide PathWeight, NonNegative;
      assert Shortest(g, s, u, d[u]) && OneEdge(g, s, found, d, t);
    } else {
      hide Shortest, OneEdge;
      LeavesFrontier(g, s, found, d, best, q, u);
    }
  }

  // The selected vertex is final.
  lemma Select(g: Weights, s: nat, found: set<nat>, d: seq<real>, v: nat)
    requires NonNegative(g) && Frontier(g, s, found, d) && v < |g| && v !in found
    requires forall u: nat | u < |g| && u !in found :: d[v] <= d[u]
    ensures Shortest(g, s, v, d[v])
  {
    assert OneEdge(g, s, found, d, v);
    var u :| u in found && d[v] == d[u] + g[u][v];
    assert Shortest(g, s, u, d[u]);
    var q :| IsPath(|g|, q, s, u) && PathWeight(g, q) == d[u];
    var p := q + [v];
    assert p[..|p| - 1] == q;
    assert IsPath(|g|, p, s, v) && PathWeight(g, p) == d[v];
    forall p | IsPath(|g|, p, s, v) ensures d[v] <= PathWeight(g, p) {
      LeavesFrontier(g, s, found, d, d[v], p, v);
    }
  }

  lemma {:induction false} PathNonNegative(g: Weights, p: seq<nat>)
    requires NonNegative(g) && forall i | 0 <= i < |p| :: p[i] < |g|
    ensures 0.0 <= PathWeight(g, p)
  {
    if |p| > 1 { PathNonNegative(g, p[..|p| - 1]); }
  }

  lemma SourceShortest(g: Weights, s: nat)
    requires NonNegative(g) && s < |g|
    ensures Shortest(g, s, s, 0.0)
  {
    assert IsPath(|g|, [s], s, s) && PathWeight(g, [s]) == 0.0;
    forall p | IsPath(|g|, p, s, s) ensures 0.0 <= PathWeight(g, p) { PathNonNegative(g, p); }
  }

  lemma StartFrontier(g: Weights, s: nat, d: seq<real>)
    requires NonNegative(g) && s < |g| && |d| == |g| && d[s] == 0.0
    requires forall j | 0 <= j < |g| && j != s :: d[j] == g[s][j]
    ensures Frontier(g, s, {s}, d)
  {
    SourceShortest(g, s);
    forall v: nat | v < |g| && v !in {s} ensures OneEdge(g, s, {s}, d, v) {
      assert s in {s};
    }
  }

  lemma AllFound(g: Weights, s: nat, found: set<nat>, d: seq<real>)
    requires Square(g, |g|) && Frontier(g, s, found, d)
    requires forall t: nat | t < |g| :: t in found && d[t] < DBL_MAX
    ensures AllShortest(g, s, d) && AllReachable(g, s)
  {
    forall t: nat | t < |g| ensures Shortest(g, s, t, d[t]) && Reachable(g, s, t) {
      assert Shortest(g, s, t, d[t]);
      var p :| IsPath(|g|, p, s, t) && PathWeight(g, p) == d[t];
    }
  }

  // One relaxation step of the whole row.
  ghost predicate Relaxed(g: Weights, found: set<nat>, d: seq<real>, v: nat, d': seq<real>)
    requires Square(g, |g|) && |d| == |d'| == |g| && v < |g|
  {
    forall j | 0 <= j < |g| :: d'[j] == Relax(g, found, d, v, j)
  }

  ghost function Relax(g: Weights, found: set<nat>, d: seq<real>, v: nat, j: nat): real
    requires Square(g, |g|) && |d| == |g| && v < |g| && j < |g|
  {
    if j !in found && j != v && d[v] + g[v][j] < d[j] then d[v] + g[v][j] else d[j]
  }

  lemma Advance(g: Weights, s: nat, found: set<nat>, d: seq<real>, v: nat, d': seq<real>)
    requires NonNegative(g) && Frontier(g, s, found, d) && v < |g| && v !in found
    requires forall u: nat | u < |g| && u !in found :: d[v] <= d[u]
    requires |d'| == |g| && Relaxed(g, found, d, v, d')
    ensures Frontier(g, s, found + {v}, d')
  {
    Select(g, s, found, d, v);
    forall j: nat | j < |g| && j !in found + {v} ensures OneEdge(g, s, found + {v}, d', j) {
      assert OneEdge(g, s, found, d, j);
      var u :| u in found && d[j] == d[u] + g[u][j];
      assert d'[u] == d[u] && d'[v] == d[v];
      assert u in found + {v} && v in found + {v};
    }
  }

  ghost function MatrixOf(w: array2<real>): (g: Weights)
    requires w.Length0 == w.Length1
    reads w
    ensures Square(g, w.Length0)
    ensures forall i, j | 0 <= i < w.Length0 && 0 <= j < w.Length0 :: g[i][j] == w[i, j]
  {
    seq(w.Length0, i requires 0 <= i < w.Length0 reads w =>
      seq(w.Length0, j requires 0 <= j < w.Length0 reads w => w[i, j]))
  }

  class WeightedGraph {
    const gSize: nat
    const weights: array2<real>
    const smallestWeight: array<real>

    ghost predicate Valid()
      reads weights
    {
      && weights.Length0 == gSize && weights.Length1 == gSize && smallestWeight.Length == gSize
      && forall i, j | 0 <= i < gSize && 0 <= j < gSize :: 0.0 <= weights[i, j] <= DBL_MAX
    }

    constructor (size: nat)
      ensures gSize == size && fresh(weights) && fresh(smallestWeight)
      ensures weights.Length0 == size && weights.Length1 == size && smallestWeight.Length == size
    {
      gSize := size;
      weights := new real[size, size];
      smallestWeight := new real[size];
    }

    // The initial row: direct edges from the source, which alone is found.
    method InitFrom(vertex: nat) returns (weightFound: array<bool>)
      requires Valid() && vertex < gSize
      modifies smallestWeight
      ensures fresh(weightFound) && weightFound.Length == gSize
      ensures forall k | 0 <= k < gSize :: weightFound[k] <==> k == vertex
      ensures forall k | 0 <= k < gSize :: smallestWeight[k] == if k == vertex then 0.0 else weights[vertex, k]
    {
      for j := 0 to gSize
        invariant forall k | 0 <= k < j :: smallestWeight[k] == weights[vertex, k]
      {
        smallestWeight[j] := weights[vertex, j];
      }
      weightFound := new bool[gSize](_ => false);
      weightFound[vertex] := true;
      smallestWeight[vertex] := 0.0;
    }

    // The first inner loop: the nearest vertex not yet found, or -1 when `v` stays unset.
    method Nearest(weightFound: array<bool>) returns (v: int, minWeight: real)
      requires Valid() && weightFound.Length == gSize
      ensures v == -1 ==> minWeight == DBL_MAX
      ensures v != -1 ==> 0 <= v < gSize && !weightFound[v] && minWeight == smallestWeight[v] < DBL_MAX
      ensures forall k | 0 <= k < gSize && !weightFound[k] :: minWeight <= smallestWeight[k]
    {
      minWeight, v := DBL_MAX, -1;
      for j := 0 to gSize
        invariant v == -1 ==> minWeight == DBL_MAX
        invariant v != -1 ==> 0 <= v < gSize && !weightFound[v] && minWeight == smallestWeight[v] < DBL_MAX
        invariant forall k | 0 <= k < j && !weightFound[k] :: minWeight <= smallestWeight[k]
      {
        if !weightFound[j] && smallestWeight[j] < minWeight {
          v := j;
          minWeight := smallestWeight[v];
        }
      }
    }

    // The second inner loop: relax all edges out of v.
    method RelaxFrom(weightFound: array<bool>, v: nat, minWeight: real)
      requires Valid() && weightFound.Length == gSize && v < gSize && weightFound[v] && minWeight == smallestWeight[v]
      modifies smallestWeight
      ensures Relaxed(MatrixOf(weights), FoundSet(weightFound[..]), old(smallestWeight[..]), v, smallestWeight[..])
    {
      ghost var g, d, found := MatrixOf(weights), smallestWeight[..], FoundSet(weightFound[..]);
      for j := 0 to gSize
        invariant forall k | j <= k < gSize :: smallestWeight[k] == d[k]
        invariant forall k | 0 <= k < j :: smallestWeight[k] == Relax(g, found, d, v, k)
      {
        if !weightFound[j] && minWeight + weights[v, j] < smallestWeight[j] {
          smallestWeight[j] := minWeight + weights[v, j];
        }
      }
    }

    // `defined` is false when a round finds no vertex to select: the C++ code then reads the
    // unset local `v`. That happens exactly when some vertex cannot be reached.
    method ShortestPath(vertex: nat) returns (defined: bool)
      requires Valid() && vertex < gSize
      modifies smallestWeight
      ensures defined <==> AllReachable(MatrixOf(weights), vertex)
      ensures defined ==> AllShortest(MatrixOf(weights), vertex, smallestWeight[..])
    {
      hide RoundInv, AllShortest, AllReachable, Relaxed, FoundSet, MatrixOf;
      ghost var g := MatrixOf(weights);
      var weightFound := InitFrom(vertex);
      RoundStart(g, vertex, weightFound[..], smallestWeight[..]);
      for i := 0 to gSize - 1
        invariant fresh(weightFound)
        invariant RoundInv(g, vertex, weightFound[..], smallestWeight[..], i)
      {
        var v, minWeight := Nearest(weightFound);
        if v == -1 {
          RoundStuck(g, vertex, weightFound[..], smallestWeight[..], i);
          return false;
        }
        ghost var wf, d := weightFound[..], smallestWeight[..];
        weightFound[v] := true;
        assert weightFound[..] == wf[v := true];
        RelaxFrom(weightFound, v, minWeight);
        RoundNext(g, vertex, wf, d, i, v, smallestWeight[..]);
      }
      RoundEnd(g, vertex, weightFound[..], smallestWeight[..]);
      return true;
    }
  }

  // ---- one round

  ghost function FoundSet(wf: seq<bool>): (r: set<nat>)
    ensures r <= Below(|wf|) && forall v: nat | v < |wf| :: v in r <==> wf[v]
  {
    set v | v in Below(|wf|) && wf[v]
  }

  // Before round i, i + 1 vertices are found, all of them at a finite distance.
  ghost predicate RoundInv(g: Weights, s: nat, wf: seq<bool>, d: seq<real>, i: nat)
    requires Square(g, |g|) && |wf| == |d| == |g|
  {
    && Frontier(g, s, FoundSet(wf), d) && |FoundSet(wf)| == i + 1
    && forall v | v in FoundSet(wf) :: d[v] < DBL_MAX
  }

  lemma RoundStart(g: Weights, s: nat, wf: seq<bool>, d: seq<real>)
    requires NonNegative(g) && |wf| == |d| == |g| && s < |g|
    requires forall k | 0 <= k < |g| :: wf[k] <==> k == s
    requires forall k | 0 <= k < |g| :: d[k] == if k == s then 0.0 else g[s][k]
    ensures RoundInv(g, s, wf, d, 0)
  {
    assert FoundSet(wf) == {s};
    StartFrontier(g, s, d);
  }

  lemma RoundNext(g: Weights, s: nat, wf: seq<bool>, d: seq<real>, i: nat, v: nat, d': seq<real>)
    requires NonNegative(g) && |wf| == |d| == |d'| == |g| && RoundInv(g, s, wf, d, i)
    requires v < |g| && !wf[v] && d[v] < DBL_MAX && forall k: nat | k < |g| && !wf[k] :: d[v] <= d[k]
    requires Relaxed(g, FoundSet(wf[v := true]), d, v, d')
    ensures RoundInv(g, s, wf[v := true], d', i + 1)
  {
    hide Frontier;
    var found, wf' := FoundSet(wf), wf[v := true];
    assert FoundSet(wf') == found + {v};
    assert Relaxed(g, found, d, v, d');
    Advance(g, s, found, d, v, d');
    KeepsFound(g, found, d, v, d');
  }

  lemma RoundStuck(g: Weights, s: nat, wf: seq<bool>, d: seq<real>, i: nat)
    requires NonNegative(g) && |wf| == |d| == |g| && RoundInv(g, s, wf, d, i) && i + 1 < |g|
    requires forall k: nat | k < |g| && !wf[k] :: DBL_MAX <= d[k]
    ensures !AllReachable(g, s)
  {
    Stuck(g, s, FoundSet(wf), d);
  }

  lemma RoundEnd(g: Weights, s: nat, wf: seq<bool>, d: seq<real>)
    requires Square(g, |g|) && |wf| == |d| == |g| && |g| > 0 && RoundInv(g, s, wf, d, |g| - 1)
    ensures AllShortest(g, s, d) && AllReachable(g, s)
  {
    SubsetCard(FoundSet(wf), Below(|g|));
    AllFound(g, s, FoundSet(wf), d);
  }

  lemma KeepsFound(g: Weights, found: set<nat>, d: seq<real>, v: nat, d': seq<real>)
    requires Square(g, |g|) && |d| == |d'| == |g| && v < |g| && Relaxed(g, found, d, v, d')
    ensures forall j: nat | j < |g| && j in found + {v} :: d'[j] == d[j]
  {}

  // When every vertex outside `found` is at DBL_MAX and there is one, it is not reachable.
  lemma Stuck(g: Weights, s: nat, found: set<nat>, d: seq<real>)
    requires NonNegative(g) && Frontier(g, s, found, d)
    requires forall v: nat | v < |g| && v !in found :: DBL_MAX <= d[v]
    requires |found| < |g| && found <= Below(|g|)
    ensures !AllReachable(g, s)
  {
    assert Below(|g|) - found != {} by { SubsetCard(Below(|g|), found + (Below(|g|) - found)); }
    var t :| t in Below(|g|) - found;
    forall p | IsPath(|g|, p, s, t) ensures DBL_MAX <= PathWeight(g, p) {
      LeavesFrontier(g, s, found, d, DBL_MAX, p, t);
    }
    assert !Reachable(g, s, t);
  }
}
