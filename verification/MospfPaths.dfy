/** Weighted graphs as the route computation of the mOSPF daemon sees them: a square matrix in which
    MAX_INT stands for "no link", and what it means for a number to be the distance to a node. */
module MospfPaths {

  const MAX_NUM := 15
  const MAX_INT := 255

  type Matrix = seq<seq<nat>>

  /** The shape `init_Graph` establishes and `caculate_graph` keeps: only diagonal entries may be zero. */
  ghost predicate Weighted(g: Matrix, n: nat) {
    && |g| == n
    && (forall i :: 0 <= i < n ==> |g[i]| == n)
    && (forall i, j :: 0 <= i < n && 0 <= j < n ==> g[i][j] <= MAX_INT)
    && (forall i, j :: 0 <= i < n && 0 <= j < n && i != j ==> 0 < g[i][j])
  }

  ghost predicate Edge(g: Matrix, u: nat, v: nat) {
    u < |g| && v < |g[u]| && 0 < g[u][v] < MAX_INT
  }

  /** The i-th and next node of `q` are linked. */
  ghost predicate Hop(g: Matrix, q: seq<nat>, i: nat)
    requires i + 1 < |q|
  {
    Edge(g, q[i], q[i + 1])
  }

  /** A path visits nodes along links of the graph. */
  ghost predicate IsPath(g: Matrix, q: seq<nat>) {
    && |q| > 0
    && (forall i :: 0 <= i < |q| ==> q[i] < |g|)
    && (forall i :: 0 <= i < |q| - 1 ==> Hop(g, q, i))
  }

  ghost predicate PathBetween(g: Matrix, q: seq<nat>, u: nat, v: nat) {
    IsPath(g, q) && q[0] == u && q[|q| - 1] == v
  }

  ghost function Cost(g: Matrix, q: seq<nat>): nat
    requires IsPath(g, q)
  {
    if |q| == 1 then 0
    else
      assert Hop(g, q, 0);
      TailIsPath(g, q);
      g[q[0]][q[1]] + Cost(g, q[1..])
  }

  /** `d` is the distance from node 0 to `v`: some path costs `d` and none costs less. */
  ghost predicate Shortest(g: Matrix, v: nat, d: nat) {
    && (exists q :: PathBetween(g, q, 0, v) && Cost(g, q) == d)
    && (forall q :: PathBetween(g, q, 0, v) ==> d <= Cost(g, q))
  }

  /** Some path from node 0 to `v` is cheap enough not to be taken for "no link". */
  ghost predicate Reachable(g: Matrix, v: nat) {
    exists q :: PathBetween(g, q, 0, v) && Cost(g, q) < MAX_INT
  }

  /** `h` is the first hop of a cheapest path from node 0 to `v`. */
  ghost predicate FirstHop(g: Matrix, v: nat, h: nat) {
    exists q :: PathBetween(g, q, 0, v) && |q| > 1 && q[1] == h && Shortest(g, v, Cost(g, q))
  }

  /** The predecessor tree the algorithm leaves behind: each predecessor is one link closer. */
  ghost predicate Tree(g: Matrix, n: nat, dist: seq<nat>, prev: seq<nat>) {
    && |dist| == |prev| == n
    && (n > 0 ==> dist[0] == 0)
    && (forall v :: 0 < v < n && dist[v] < MAX_INT ==>
          prev[v] < n && Edge(g, prev[v], v) && dist[prev[v]] + g[prev[v]][v] == dist[v])
  }

  /** No link can improve the estimates. */
  ghost predicate Feasible(g: Matrix, n: nat, dist: seq<nat>) {
    && |dist| == n
    && (forall u, v :: 0 <= u < n && 0 <= v < n && Edge(g, u, v) ==> dist[v] <= dist[u] + g[u][v])
  }

  lemma TailIsPath(g: Matrix, q: seq<nat>)
    requires IsPath(g, q) && |q| > 1
    ensures IsPath(g, q[1..])
  {
    forall i | 0 <= i < |q[1..]| - 1 ensures Hop(g, q[1..], i) {
      assert Hop(g, q, i + 1);
    }
  }

  lemma Prepend(g: Matrix, u: nat, q: seq<nat>)
    requires IsPath(g, q) && Edge(g, u, q[0])
    ensures IsPath(g, [u] + q) && Cost(g, [u] + q) == g[u][q[0]] + Cost(g, q)
  {
    var p := [u] + q;
    forall i | 0 <= i < |p| - 1 ensures Hop(g, p, i) {
      if i > 0 { assert Hop(g, q, i - 1); }
    }
    assert p[1..] == q;
  }

  /** Estimates that no link can improve are lower bounds for every path. */
  lemma {:induction false} FeasibleBound(g: Matrix, n: nat, dist: seq<nat>, q: seq<nat>)
    requires Weighted(g, n) && Feasible(g, n, dist) && IsPath(g, q)
    ensures dist[q[|q| - 1]] <= dist[q[0]] + Cost(g, q)
    decreases |q|
  {
    if |q| > 1 {
      assert Hop(g, q, 0);
      TailIsPath(g, q);
      FeasibleBound(g, n, dist, q[1..]);
    }
  }

  /** Chasing predecessors from any node extends a path back to node 0 without changing the total. */
  lemma {:induction false} TreePath(g: Matrix, n: nat, dist: seq<nat>, prev: seq<nat>, q: seq<nat>)
    returns (p: seq<nat>)
    requires Weighted(g, n) && Tree(g, n, dist, prev) && IsPath(g, q)
    requires dist[q[0]] < MAX_INT
    ensures PathBetween(g, p, 0, q[|q| - 1])
    ensures Cost(g, p) == dist[q[0]] + Cost(g, q)
    ensures q[0] == 0 ==> p == q
    ensures |q| <= |p| && q == p[|p| - |q|..]
    decreases dist[q[0]]
  {
    if q[0] == 0 {
      p := q;
    } else {
      var u := prev[q[0]];
      Prepend(g, u, q);
      p := TreePath(g, n, dist, prev, [u] + q);
      assert q == ([u] + q)[1..];
    }
  }

  /** A predecessor tree whose estimates no link can improve holds exact distances. */
  lemma ExactDistance(g: Matrix, n: nat, dist: seq<nat>, prev: seq<nat>, v: nat)
    requires Weighted(g, n) && Tree(g, n, dist, prev) && Feasible(g, n, dist)
    requires v < n && dist[v] < MAX_INT
    ensures Shortest(g, v, dist[v])
    ensures Reachable(g, v)
  {
    var p := TreePath(g, n, dist, prev, [v]);
    assert PathBetween(g, p, 0, v) && Cost(g, p) == dist[v];
    forall q | PathBetween(g, q, 0, v) ensures dist[v] <= Cost(g, q) {
      FeasibleBound(g, n, dist, q);
    }
  }

  /** A node whose estimate is still MAX_INT, in a state that no link can improve, is out of reach. */
  lemma Unreachable(g: Matrix, n: nat, dist: seq<nat>, v: nat)
    requires Weighted(g, n) && Feasible(g, n, dist) && n > 0 && dist[0] == 0
    requires v < n && dist[v] == MAX_INT
    ensures !Reachable(g, v)
  {
    forall q | PathBetween(g, q, 0, v) ensures MAX_INT <= Cost(g, q) {
      FeasibleBound(g, n, dist, q);
    }
  }

  /** Walking back from `start` along predecessors has led to `hop`, with no detour. */
  ghost predicate Leads(g: Matrix, dist: seq<nat>, q: seq<nat>, hop: nat, start: nat) {
    && PathBetween(g, q, hop, start) && hop < |dist| && start < |dist|
    && dist[hop] + Cost(g, q) == dist[start]
  }

  lemma LeadsBack(g: Matrix, n: nat, dist: seq<nat>, prev: seq<nat>, q: seq<nat>, hop: nat, start: nat)
    requires Weighted(g, n) && Tree(g, n, dist, prev) && 0 < hop < n && dist[hop] < MAX_INT
    requires Leads(g, dist, q, hop, start)
    ensures prev[hop] < n && Edge(g, prev[hop], hop) && dist[prev[hop]] + g[prev[hop]][hop] == dist[hop]
    ensures Leads(g, dist, [prev[hop]] + q, prev[hop], start)
  {
    Prepend(g, prev[hop], q);
  }

  lemma LeadsToFirstHop(g: Matrix, n: nat, dist: seq<nat>, prev: seq<nat>, q: seq<nat>, hop: nat, start: nat)
    requires Weighted(g, n) && Tree(g, n, dist, prev) && 0 < hop < n && dist[hop] < MAX_INT && prev[hop] == 0
    requires Leads(g, dist, q, hop, start) && Shortest(g, start, dist[start])
    ensures Edge(g, 0, hop) && dist[hop] == g[0][hop] && FirstHop(g, start, hop)
  {
    LeadsBack(g, n, dist, prev, q, hop, start);
    var p := [0] + q;
    assert PathBetween(g, p, 0, start) && |p| > 1 && p[1] == hop;
  }

  lemma ShortestIsUnique(g: Matrix, v: nat, d: nat, e: nat)
    requires Shortest(g, v, d) && Shortest(g, v, e)
    ensures d == e
  {
    var p :| PathBetween(g, p, 0, v) && Cost(g, p) == d;
    var q :| PathBetween(g, q, 0, v) && Cost(g, q) == e;
  }

  ghost function Below(n: nat): (s: set<nat>)
    ensures forall v: nat :: v in s <==> v < n
    ensures |s| == n
  {
    if n == 0 then {} else Below(n - 1) + {n - 1}
  }

  lemma SubsetSize(a: set<nat>, b: set<nat>)
    requires a <= b
    ensures |a| <= |b| && (|a| == |b| ==> a == b)
  {
    assert b == a + (b - a);
  }
}
