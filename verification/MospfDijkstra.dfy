/** What one round of `Dijkstra` keeps, and what is known when the rounds end. */
module MospfDijkstra {
  import opened MospfPaths

  /** Estimates are bounded, and settled nodes have finite ones. */
  ghost predicate Bounded(n: nat, dist: seq<nat>, vis: seq<bool>) {
    && |dist| == |vis| == n > 0 && vis[0] && dist[0] == 0
    && (forall v :: 0 <= v < n ==> dist[v] <= MAX_INT)
    && (forall v :: 0 <= v < n && vis[v] ==> dist[v] < MAX_INT)
  }

  /** Finite estimates come from a settled predecessor one link closer. */
  ghost predicate Grown(g: Matrix, n: nat, dist: seq<nat>, prev: seq<nat>, vis: seq<bool>) {
    && |dist| == |prev| == |vis| == n
    && (forall v :: 0 < v < n && dist[v] < MAX_INT ==>
          && prev[v] < n && vis[prev[v]]
          && Edge(g, prev[v], v) && dist[prev[v]] + g[prev[v]][v] == dist[v])
  }

  /** Settled nodes are no farther than open ones. */
  ghost predicate Ordered(n: nat, dist: seq<nat>, vis: seq<bool>) {
    && |dist| == |vis| == n
    && (forall u, v :: 0 <= u < n && 0 <= v < n && vis[u] && !vis[v] ==> dist[u] <= dist[v])
  }

  /** The links of settled nodes cannot improve any estimate. */
  ghost predicate Relaxed(g: Matrix, n: nat, dist: seq<nat>, vis: seq<bool>) {
    && |dist| == |vis| == n
    && (forall u, v :: 0 <= u < n && 0 <= v < n && vis[u] && Edge(g, u, v) ==> dist[v] <= dist[u] + g[u][v])
  }

  /** What holds between two rounds of the algorithm. */
  ghost predicate Round(g: Matrix, n: nat, dist: seq<nat>, prev: seq<nat>, vis: seq<bool>) {
    Bounded(n, dist, vis) && Grown(g, n, dist, prev, vis) && Ordered(n, dist, vis) && Relaxed(g, n, dist, vis)
  }

  predicate Improves(g: Matrix, dist: seq<nat>, vis: seq<bool>, u: nat, v: nat)
    requires u < |g| == |dist| == |vis| && v < |g[u]| == |g|
  {
    !vis[v] && g[u][v] > 0 && dist[u] != MAX_INT && dist[u] + g[u][v] < dist[v]
  }

  ghost function VisitedSet(vis: seq<bool>): set<nat> {
    set v: nat | v < |vis| && vis[v]
  }

  /** Counting visited nodes: all of them, exactly when the count is n. */
  lemma VisitedCount(vis: seq<bool>)
    ensures |VisitedSet(vis)| <= |vis|
    ensures |VisitedSet(vis)| == |vis| <==> forall v :: 0 <= v < |vis| ==> vis[v]
  {
    SubsetSize(VisitedSet(vis), Below(|vis|));
    if forall v :: 0 <= v < |vis| ==> vis[v] {
      assert VisitedSet(vis) == Below(|vis|);
    } else {
      var v :| 0 <= v < |vis| && !vis[v];
      assert v in Below(|vis|) && v !in VisitedSet(vis);
    }
  }

  /** `dist'` and `prev'` are what the inner loop makes of `dist` and `prev` after settling `u`. */
  ghost predicate Settles(g: Matrix, n: nat, dist: seq<nat>, prev: seq<nat>, vis: seq<bool>, u: nat,
                          dist': seq<nat>, prev': seq<nat>)
  {
    && Weighted(g, n) && |dist| == |prev| == |vis| == |dist'| == |prev'| == n
    && u < n && !vis[u] && dist[u] < MAX_INT
    && (forall v :: 0 <= v < n && !vis[v] ==> dist[u] <= dist[v])
    && (forall v :: 0 <= v < n ==>
          dist'[v] == if Improves(g, dist, vis[u := true], u, v) then dist[u] + g[u][v] else dist[v])
    && (forall v :: 0 <= v < n ==>
          prev'[v] == if Improves(g, dist, vis[u := true], u, v) then u else prev[v])
  }

  lemma SettleBounds(g: Matrix, n: nat, dist: seq<nat>, prev: seq<nat>, vis: seq<bool>, u: nat,
                     dist': seq<nat>, prev': seq<nat>)
    requires Settles(g, n, dist, prev, vis, u, dist', prev') && Bounded(n, dist, vis) && Ordered(n, dist, vis)
    ensures Bounded(n, dist', vis[u := true]) && Ordered(n, dist', vis[u := true])
    ensures forall v :: 0 <= v < n ==> dist'[v] <= dist[v]
    ensures forall v :: 0 <= v < n && vis[u := true][v] ==> dist'[v] == dist[v]
  {
  }

  lemma SettleTree(g: Matrix, n: nat, dist: seq<nat>, prev: seq<nat>, vis: seq<bool>, u: nat,
                   dist': seq<nat>, prev': seq<nat>)
    requires Settles(g, n, dist, prev, vis, u, dist', prev') && Grown(g, n, dist, prev, vis)
    requires Bounded(n, dist, vis)
    requires forall v :: 0 <= v < n && vis[u := true][v] ==> dist'[v] == dist[v]
    ensures Grown(g, n, dist', prev', vis[u := true])
  {
    var vis' := vis[u := true];
    forall v | 0 < v < n && dist'[v] < MAX_INT
      ensures prev'[v] < n && vis'[prev'[v]] && Edge(g, prev'[v], v)
      ensures dist'[prev'[v]] + g[prev'[v]][v] == dist'[v]
    {
      if Improves(g, dist, vis', u, v) {
        assert prev'[v] == u && dist'[v] == dist[u] + g[u][v];
      } else {
        assert prev'[v] == prev[v] && dist'[v] == dist[v] && vis[prev[v]];
      }
    }
  }

  lemma SettleLinks(g: Matrix, n: nat, dist: seq<nat>, prev: seq<nat>, vis: seq<bool>, u: nat,
                    dist': seq<nat>, prev': seq<nat>)
    requires Settles(g, n, dist, prev, vis, u, dist', prev') && Relaxed(g, n, dist, vis) && Ordered(n, dist, vis)
    requires forall v :: 0 <= v < n ==> dist'[v] <= dist[v]
    requires forall v :: 0 <= v < n && vis[u := true][v] ==> dist'[v] == dist[v]
    ensures Relaxed(g, n, dist', vis[u := true])
  {
    var vis' := vis[u := true];
    forall a, b | 0 <= a < n && 0 <= b < n && vis'[a] && Edge(g, a, b)
      ensures dist'[b] <= dist'[a] + g[a][b]
    {
      assert dist'[a] == dist[a] && dist'[b] <= dist[b];
      if a != u {
        assert dist[b] <= dist[a] + g[a][b];
      } else if vis[b] {
        assert dist[b] <= dist[u];
      } else {
        assert Improves(g, dist, vis', u, b) || b == u || dist[b] <= dist[u] + g[u][b];
      }
    }
  }

  /** Settling a nearest open node and relaxing its links starts the next round. */
  lemma NextRound(g: Matrix, n: nat, dist: seq<nat>, prev: seq<nat>, vis: seq<bool>, u: nat,
                  dist': seq<nat>, prev': seq<nat>)
    requires Settles(g, n, dist, prev, vis, u, dist', prev') && Round(g, n, dist, prev, vis)
    ensures Round(g, n, dist', prev', vis[u := true])
    ensures |VisitedSet(vis[u := true])| == |VisitedSet(vis)| + 1
  {
    assert VisitedSet(vis[u := true]) == VisitedSet(vis) + {u};
    SettleBounds(g, n, dist, prev, vis, u, dist', prev');
    SettleTree(g, n, dist, prev, vis, u, dist', prev');
    SettleLinks(g, n, dist, prev, vis, u, dist', prev');
  }

  /** Every estimate is the distance of its node. */
  ghost predicate Exact(g: Matrix, n: nat, dist: seq<nat>) {
    |dist| == n && forall v :: 0 <= v < n ==> dist[v] < MAX_INT && Shortest(g, v, dist[v])
  }

  ghost predicate AllReachable(g: Matrix, n: nat) {
    forall v :: 0 <= v < n ==> Reachable(g, v)
  }

  /** When no open node has a finite estimate, no link can improve any estimate. */
  lemma StuckIsFeasible(g: Matrix, n: nat, dist: seq<nat>, prev: seq<nat>, vis: seq<bool>)
    requires Weighted(g, n) && Round(g, n, dist, prev, vis)
    requires forall v :: 0 <= v < n && !vis[v] ==> dist[v] == MAX_INT
    ensures Feasible(g, n, dist) && Tree(g, n, dist, prev)
  {
  }

  /** Some node is open and none can be settled: that node is out of reach. */
  lemma StuckMeansUnreachable(g: Matrix, n: nat, dist: seq<nat>, prev: seq<nat>, vis: seq<bool>)
    requires Weighted(g, n) && Round(g, n, dist, prev, vis) && |VisitedSet(vis)| < n
    requires forall v :: 0 <= v < n && !vis[v] ==> MAX_INT <= dist[v]
    ensures !AllReachable(g, n)
  {
    VisitedCount(vis);
    var v :| 0 <= v < n && !vis[v];
    StuckIsFeasible(g, n, dist, prev, vis);
    Unreachable(g, n, dist, v);
  }

  /** All nodes settled: every estimate is a distance. */
  lemma AllSettled(g: Matrix, n: nat, dist: seq<nat>, prev: seq<nat>, vis: seq<bool>)
    requires Weighted(g, n) && Round(g, n, dist, prev, vis) && |VisitedSet(vis)| == n
    ensures Feasible(g, n, dist) && Tree(g, n, dist, prev)
    ensures Exact(g, n, dist) && AllReachable(g, n)
  {
    VisitedCount(vis);
    StuckIsFeasible(g, n, dist, prev, vis);
    forall v | 0 <= v < n ensures dist[v] < MAX_INT && Shortest(g, v, dist[v]) && Reachable(g, v) {
      ExactDistance(g, n, dist, prev, v);
    }
  }

  lemma InitialRound(g: Matrix, n: nat, dist: seq<nat>, prev: seq<nat>, vis: seq<bool>)
    requires Weighted(g, n) && n > 0 && |dist| == |prev| == |vis| == n
    requires forall v :: 0 <= v < n ==> vis[v] == (v == 0) && dist[v] == if v == 0 then 0 else g[0][v]
    requires forall v :: 0 < v < n && g[0][v] != MAX_INT ==> prev[v] == 0
    ensures Round(g, n, dist, prev, vis) && |VisitedSet(vis)| == 1
  {
    assert VisitedSet(vis) == {0};
  }
}
