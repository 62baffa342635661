/** The graph a link-state database describes, and distances in it said in terms of routers. */
module MospfTopology {
  import opened MospfPaths
  import opened MospfDatabase

  /** Weight 1 exactly between routers one of which advertises the other. */
  ghost function Weight(nodes: seq<nat>, links: set<(nat, nat)>, x: nat, y: nat): nat
    requires x < |nodes| && y < |nodes|
  {
    if Linked(links, nodes[x], nodes[y]) then 1 else if x == y then 0 else MAX_INT
  }

  ghost function GraphOf(nodes: seq<nat>, links: set<(nat, nat)>): (g: Matrix)
    ensures Weighted(g, |nodes|)
    ensures forall x, y :: 0 <= x < |nodes| && 0 <= y < |nodes| ==> g[x][y] == Weight(nodes, links, x, y)
  {
    seq(|nodes|, x requires 0 <= x < |nodes| =>
      seq(|nodes|, y requires 0 <= y < |nodes| => Weight(nodes, links, x, y)))
  }

  ghost function DbGraph(self: nat, db: seq<DbEntry>): Matrix
    requires InBounds(db)
  {
    GraphOf(Nodes(self, db), Links(db))
  }

  ghost function Members(q: seq<nat>): set<nat> {
    set i | 0 <= i < |q| :: q[i]
  }

  lemma {:induction false} DistinctSize(q: seq<nat>)
    requires forall i, j :: 0 <= i < j < |q| ==> q[i] != q[j]
    ensures |Members(q)| == |q|
  {
    if q == [] {
      assert Members(q) == {};
    } else {
      var m := |q| - 1;
      DistinctSize(q[..m]);
      assert Members(q) == Members(q[..m]) + {q[m]};
    }
  }

  lemma PathPrefix(g: Matrix, q: seq<nat>, hi: nat)
    requires IsPath(g, q) && 0 < hi <= |q|
    ensures IsPath(g, q[..hi])
  {
    forall k | 0 <= k < hi - 1 ensures Hop(g, q[..hi], k) {
      assert Hop(g, q, k);
    }
  }

  lemma PathSuffix(g: Matrix, q: seq<nat>, lo: nat)
    requires IsPath(g, q) && lo < |q|
    ensures IsPath(g, q[lo..])
  {
    forall k | 0 <= k < |q| - lo - 1 ensures Hop(g, q[lo..], k) {
      assert Hop(g, q, lo + k);
    }
  }

  lemma JoinPaths(g: Matrix, a: seq<nat>, b: seq<nat>)
    requires IsPath(g, a) && IsPath(g, b) && a[|a| - 1] == b[0]
    ensures PathBetween(g, a[..|a| - 1] + b, a[0], b[|b| - 1])
  {
    var m := |a| - 1;
    var p := a[..m] + b;
    forall k | 0 <= k < |p| - 1 ensures Hop(g, p, k) {
      if k < m {
        assert Hop(g, a, k);
        assert p[k] == a[k] && p[k + 1] == a[k + 1];
      } else {
        assert Hop(g, b, k - m);
      }
    }
  }

  /** Cutting a loop out of a path leaves a path with the same ends. */
  lemma CutLoop(g: Matrix, q: seq<nat>, i: nat, j: nat)
    requires IsPath(g, q) && i < j < |q| && q[i] == q[j]
    ensures PathBetween(g, q[..i] + q[j..], q[0], q[|q| - 1])
  {
    var a, b := q[..i + 1], q[j..];
    PathPrefix(g, q, i + 1);
    PathSuffix(g, q, j);
    JoinPaths(g, a, b);
    assert a[..i] == q[..i];
  }

  /** Any path can be shortened to one that visits no more nodes than there are. */
  lemma {:induction false} ShortPath(g: Matrix, n: nat, q: seq<nat>) returns (p: seq<nat>)
    requires Weighted(g, n) && IsPath(g, q)
    ensures PathBetween(g, p, q[0], q[|q| - 1]) && |p| <= n
    decreases |q|
  {
    if |q| <= n {
      p := q;
    } else {
      if forall i, j :: 0 <= i < j < |q| ==> q[i] != q[j] {
        DistinctSize(q);
        SubsetSize(Members(q), Below(n));
      }
      var i, j :| 0 <= i < j < |q| && q[i] == q[j];
      CutLoop(g, q, i, j);
      p := ShortPath(g, n, q[..i] + q[j..]);
    }
  }

  /** In the graph of a database a path costs as much as it has links. */
  lemma {:induction false} CostIsHops(nodes: seq<nat>, links: set<(nat, nat)>, q: seq<nat>)
    requires IsPath(GraphOf(nodes, links), q)
    ensures Cost(GraphOf(nodes, links), q) == |q| - 1
    decreases |q|
  {
    var g := GraphOf(nodes, links);
    if |q| > 1 {
      assert Hop(g, q, 0);
      TailIsPath(g, q);
      CostIsHops(nodes, links, q[1..]);
    }
  }

  ghost predicate Link(links: set<(nat, nat)>, rids: seq<nat>, i: nat)
    requires i + 1 < |rids|
  {
    Linked(links, rids[i], rids[i + 1])
  }

  /** A chain of routers, each linked to the next by an advertisement of either. */
  ghost predicate Chain(links: set<(nat, nat)>, rids: seq<nat>) {
    forall i :: 0 <= i < |rids| - 1 ==> Link(links, rids, i)
  }

  ghost function RouterIds(nodes: seq<nat>, q: seq<nat>): seq<nat>
    requires forall i :: 0 <= i < |q| ==> q[i] < |nodes|
  {
    seq(|q|, i requires 0 <= i < |q| => nodes[q[i]])
  }

  /** Paths of the matrix are exactly the chains of advertised links between known routers. */
  lemma PathIsChain(nodes: seq<nat>, links: set<(nat, nat)>, q: seq<nat>)
    requires |q| > 0 && forall i :: 0 <= i < |q| ==> q[i] < |nodes|
    ensures IsPath(GraphOf(nodes, links), q) <==> Chain(links, RouterIds(nodes, q))
  {
    var g, r := GraphOf(nodes, links), RouterIds(nodes, q);
    forall i | 0 <= i < |q| - 1
      ensures Hop(g, q, i) <==> Link(links, r, i)
    {
      assert g[q[i]][q[i + 1]] == Weight(nodes, links, q[i], q[i + 1]);
    }
    if IsPath(g, q) {
      forall i | 0 <= i < |r| - 1 ensures Link(links, r, i) {
        assert Hop(g, q, i);
      }
    }
    if Chain(links, r) {
      forall i | 0 <= i < |q| - 1 ensures Hop(g, q, i) {
        assert Link(links, r, i);
      }
    }
  }

  /** With at most MAX_NUM nodes the MAX_INT cap never bites: reachable means connected. */
  lemma ReachableIsConnected(nodes: seq<nat>, links: set<(nat, nat)>, v: nat)
    requires |nodes| <= MAX_NUM
    ensures Reachable(GraphOf(nodes, links), v) <==> exists q :: PathBetween(GraphOf(nodes, links), q, 0, v)
  {
    var g := GraphOf(nodes, links);
    if q :| PathBetween(g, q, 0, v) {
      var p := ShortPath(g, |nodes|, q);
      CostIsHops(nodes, links, p);
    }
  }

  /** Links of the database lead from this router to node `v`. */
  ghost predicate Connected(self: nat, db: seq<DbEntry>, v: nat)
    requires InBounds(db)
  {
    exists q :: PathBetween(DbGraph(self, db), q, 0, v)
  }

  /** A chain of advertised links from this router to `rid` through routers of the database. */
  ghost predicate RouterChain(self: nat, db: seq<DbEntry>, r: seq<nat>, rid: nat)
    requires InBounds(db)
  {
    && |r| > 0 && r[0] == self && r[|r| - 1] == rid && Chain(Links(db), r)
    && forall i :: 0 <= i < |r| ==> r[i] in Nodes(self, db)
  }

  ghost predicate FewestHops(self: nat, db: seq<DbEntry>, rid: nat, d: nat)
    requires InBounds(db)
  {
    && (exists r :: RouterChain(self, db, r, rid) && |r| == d + 1)
    && (forall r :: RouterChain(self, db, r, rid) ==> d + 1 <= |r|)
  }

  /** Some chain of `d` links to `rid`, as short as any, starts by going to `via`. */
  ghost predicate ShortestChainVia(self: nat, db: seq<DbEntry>, rid: nat, d: nat, via: nat)
    requires InBounds(db)
  {
    && FewestHops(self, db, rid, d)
    && exists r :: RouterChain(self, db, r, rid) && |r| == d + 1 && |r| > 1 && r[1] == via
  }

  lemma {:induction false} PositionsOf(nodes: seq<nat>, r: seq<nat>) returns (q: seq<nat>)
    requires forall i :: 0 <= i < |r| ==> r[i] in nodes
    ensures |q| == |r| && forall i :: 0 <= i < |q| ==> q[i] < |nodes| && nodes[q[i]] == r[i]
  {
    if r == [] {
      q := [];
    } else {
      var m := |r| - 1;
      q := PositionsOf(nodes, r[..m]);
      assert r[m] in nodes;
      var x: nat :| x < |nodes| && nodes[x] == r[m];
      q := q + [x];
    }
  }

  /** Every chain of routers is a path of the matrix with as many links. */
  lemma ChainToPath(self: nat, db: seq<DbEntry>, v: nat, r: seq<nat>) returns (q: seq<nat>)
    requires InBounds(db) && Distinct(self, db) && v <= |db|
    requires RouterChain(self, db, r, Nodes(self, db)[v])
    ensures |q| == |r| && PathBetween(DbGraph(self, db), q, 0, v)
  {
    var nodes := Nodes(self, db);
    q := PositionsOf(nodes, r);
    PathIsChain(nodes, Links(db), q);
    assert RouterIds(nodes, q) == r;
    assert nodes[q[0]] == nodes[0] && nodes[q[|q| - 1]] == nodes[v];
  }

  lemma PathToChain(self: nat, db: seq<DbEntry>, v: nat, q: seq<nat>)
    requires InBounds(db) && v <= |db| && PathBetween(DbGraph(self, db), q, 0, v)
    ensures RouterChain(self, db, RouterIds(Nodes(self, db), q), Nodes(self, db)[v])
  {
    PathIsChain(Nodes(self, db), Links(db), q);
  }

  /** Distances and first hops in the matrix, said of chains of routers in the database. */
  lemma HopsFromMatrix(self: nat, db: seq<DbEntry>, v: nat, d: nat, h: nat)
    requires InBounds(db) && Distinct(self, db) && 0 < v <= |db| && h <= |db|
    requires Shortest(DbGraph(self, db), v, d) && FirstHop(DbGraph(self, db), v, h)
    ensures ShortestChainVia(self, db, Nodes(self, db)[v], d, Nodes(self, db)[h])
    ensures Linked(Links(db), self, Nodes(self, db)[h])
  {
    var g, nodes := DbGraph(self, db), Nodes(self, db);
    var p :| PathBetween(g, p, 0, v) && |p| > 1 && p[1] == h && Shortest(g, v, Cost(g, p));
    ShortestIsUnique(g, v, d, Cost(g, p));
    CostIsHops(nodes, Links(db), p);
    PathToChain(self, db, v, p);
    var r := RouterIds(nodes, p);
    assert Link(Links(db), r, 0);
    assert RouterChain(self, db, r, nodes[v]) && |r| == d + 1 && r[0] == self && r[1] == nodes[h];
    forall s | RouterChain(self, db, s, nodes[v]) ensures d + 1 <= |s| {
      var q := ChainToPath(self, db, v, s);
      CostIsHops(nodes, Links(db), q);
    }
  }
}
