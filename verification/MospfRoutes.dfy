/** Route computation of the mOSPF daemon: the link-state database becomes an adjacency matrix,
    Dijkstra's algorithm runs over the global arrays, and predecessors are chased to a next hop. */
module MospfRoutes {
  import opened MospfPaths
  import opened MospfDatabase
  import opened MospfTopology
  import opened MospfDijkstra

  const NO_PREV := 0xFFFF_FFFF  // -1 stored in a u32

  /** Adding one link changes the weight of its two ends' entries and nothing else. */
  lemma AddLink(nodes: seq<nat>, links: set<(nat, nat)>, x: nat, y: nat, a: nat, b: nat)
    requires x < |nodes| && y < |nodes| && a < |nodes| && b < |nodes|
    requires forall i, j :: 0 <= i < j < |nodes| ==> nodes[i] != nodes[j]
    ensures Weight(nodes, links + {(nodes[y], nodes[x])}, a, b) ==
            if (a == x && b == y) || (a == y && b == x) then 1 else Weight(nodes, links, a, b)
  {
  }

  class RouteTable {
    const Dist: array<nat>
    const Prev: array<nat>
    const Node: array<nat>
    const Visited: array<bool>
    const Graph: array2<nat>

    ghost predicate Valid() {
      && Dist.Length == Prev.Length == Node.Length == Visited.Length == MAX_NUM
      && Graph.Length0 == Graph.Length1 == MAX_NUM
      && Dist != Prev && Dist != Node && Prev != Node
    }

    /** The upper left n x n part of the global matrix is `g`. */
    ghost predicate Holds(g: Matrix, n: nat)
      requires Valid() && n <= MAX_NUM
      reads Graph
    {
      |g| == n && forall i :: 0 <= i < n ==> |g[i]| == n && forall j :: 0 <= j < n ==> Graph[i, j] == g[i][j]
    }

    /** The matrix shows exactly the given links between the given nodes. */
    ghost predicate Shows(nodes: seq<nat>, links: set<(nat, nat)>)
      requires Valid() && |nodes| <= MAX_NUM
      reads Graph
    {
      forall x, y :: 0 <= x < |nodes| && 0 <= y < |nodes| ==> Graph[x, y] == Weight(nodes, links, x, y)
    }

    /** The arrays hold the nodes of the database, their distances and a shortest-path tree. */
    ghost predicate Solved(self: nat, db: seq<DbEntry>)
      requires Valid() && InBounds(db) && |db| < MAX_NUM
      reads Node, Dist, Prev
    {
      var n := |db| + 1;
      && Node[..n] == Nodes(self, db)
      && Tree(DbGraph(self, db), n, Dist[..n], Prev[..n])
      && Feasible(DbGraph(self, db), n, Dist[..n])
      && Exact(DbGraph(self, db), n, Dist[..n])
    }

    constructor ()
      ensures Valid() && fresh(Dist) && fresh(Prev) && fresh(Node) && fresh(Visited) && fresh(Graph)
    {
      Dist := new nat[MAX_NUM](_ => 0);
      Prev := new nat[MAX_NUM](_ => 0);
      Node := new nat[MAX_NUM](_ => 0);
      Visited := new bool[MAX_NUM](_ => false);
      Graph := new nat[MAX_NUM, MAX_NUM]((_, _) => 0);
    }

    method InitGraph()
      requires Valid()
      modifies Graph
      ensures forall i, j :: 0 <= i < MAX_NUM && 0 <= j < MAX_NUM ==> Graph[i, j] == if i == j then 0 else MAX_INT
    {
      var i := 0;
      while i != MAX_NUM
        invariant 0 <= i <= MAX_NUM
        invariant forall a, b :: 0 <= a < i && 0 <= b < MAX_NUM ==> Graph[a, b] == if a == b then 0 else MAX_INT
      {
        var j := 0;
        while j != MAX_NUM
          invariant 0 <= j <= MAX_NUM
          invariant forall a, b :: 0 <= a < i && 0 <= b < MAX_NUM ==> Graph[a, b] == if a == b then 0 else MAX_INT
          invariant forall b :: 0 <= b < j ==> Graph[i, b] == if i == b then 0 else MAX_INT
        {
          Graph[i, j] := if i == j then 0 else MAX_INT;
          j := j + 1;
        }
        i := i + 1;
      }
    }

    /** First position of `rid` among the nodes; -1 is the place of the failing `assert(0)`. */
    method GetNode(rid: nat, n: nat) returns (r: int)
      requires Valid() && n <= MAX_NUM
      ensures r == -1 <==> rid !in Node[..n]
      ensures r != -1 ==> 0 <= r < n && Node[r] == rid && rid !in Node[..r]
    {
      var i := 0;
      while i != n
        invariant 0 <= i <= n
        invariant rid !in Node[..i]
      {
        if rid == Node[i] {
          return i;
        }
        i := i + 1;
      }
      return -1;
    }

    /** `Graph[x][y] = Graph[y][x] = 1`. */
    method SetLink(x: nat, y: nat, ghost nodes: seq<nat>, ghost links: set<(nat, nat)>)
      requires Valid() && x < |nodes| <= MAX_NUM && y < |nodes|
      requires forall i, j :: 0 <= i < j < |nodes| ==> nodes[i] != nodes[j]
      requires Shows(nodes, links)
      modifies Graph
      ensures Shows(nodes, links + {(nodes[y], nodes[x])})
    {
      Graph[y, x] := 1;
      Graph[x, y] := 1;
      forall a, b | 0 <= a < |nodes| && 0 <= b < |nodes|
        ensures Graph[a, b] == Weight(nodes, links + {(nodes[y], nodes[x])}, a, b)
      {
        AddLink(nodes, links, x, y, a, b);
      }
    }

    /** Enters the link of one LSA, unless it is a stub; false where the source's assertion fails. */
    method AddLsa(rid: nat, l: Lsa, n: nat, ghost nodes: seq<nat>, ghost links: set<(nat, nat)>) returns (ok: bool)
      requires Valid() && n <= MAX_NUM && Node[..n] == nodes && rid in nodes
      requires forall i, j :: 0 <= i < j < n ==> nodes[i] != nodes[j]
      requires Shows(nodes, links)
      modifies Graph
      ensures ok <==> l.rid == 0 || l.rid in nodes
      ensures ok ==> Shows(nodes, if l.rid == 0 then links else links + {(rid, l.rid)})
    {
      if l.rid == 0 {
        return true;
      }
      var x := GetNode(l.rid, n);
      if x == -1 {
        return false;
      }
      var y := GetNode(rid, n);
      assert nodes[x] == Node[x] && nodes[y] == Node[y];
      SetLink(x, y, nodes, links);
      return true;
    }

    /** Enters the links of one database entry. */
    method AddEntry(e: DbEntry, n: nat, ghost nodes: seq<nat>, ghost before: set<(nat, nat)>) returns (ok: bool)
      requires Valid() && n <= MAX_NUM && e.nadv <= |e.lsas|
      requires Node[..n] == nodes && e.rid in nodes
      requires forall i, j :: 0 <= i < j < n ==> nodes[i] != nodes[j]
      requires Shows(nodes, before)
      modifies Graph
      ensures ok <==> EntryKnown(nodes, e)
      ensures ok ==> Shows(nodes, before + EntryLinks(e, e.nadv))
    {
      ghost var links := before;
      var i := 0;
      while i != e.nadv
        invariant 0 <= i <= e.nadv
        invariant links == before + EntryLinks(e, i)
        invariant forall j :: 0 <= j < i ==> e.lsas[j].rid == 0 || e.lsas[j].rid in nodes
        invariant Shows(nodes, links)
      {
        ok := AddLsa(e.rid, e.lsas[i], n, nodes, links);
        if !ok {
          return;
        }
        links := if e.lsas[i].rid == 0 then links else links + {(e.rid, e.lsas[i].rid)};
        i := i + 1;
      }
      return true;
    }

    /** The first half of `caculate_graph`: an empty matrix and one node per router. */
    method CollectNodes(self: nat, db: seq<DbEntry>) returns (n: nat)
      requires Valid() && |db| < MAX_NUM
      modifies Graph, Node
      ensures n == |db| + 1 && Node[..n] == Nodes(self, db)
      ensures forall i, j :: 0 <= i < MAX_NUM && 0 <= j < MAX_NUM ==> Graph[i, j] == if i == j then 0 else MAX_INT
    {
      InitGraph();
      n := 0;
      Node[n] := self;
      n := n + 1;
      for k := 0 to |db|
        invariant n == k + 1
        invariant Node[..n] == Nodes(self, db)[..n]
        invariant forall i, j :: 0 <= i < MAX_NUM && 0 <= j < MAX_NUM ==> Graph[i, j] == if i == j then 0 else MAX_INT
      {
        Node[n] := db[k].rid;
        n := n + 1;
        assert Node[..n] == Node[..n - 1] + [db[k].rid];
        assert Nodes(self, db)[..n] == Nodes(self, db)[..n - 1] + [db[k].rid];
      }
    }

    /** The second half: the links of one entry after the other. */
    method AddEntries(db: seq<DbEntry>, n: nat, ghost nodes: seq<nat>) returns (ok: bool)
      requires Valid() && InBounds(db) && n == |db| + 1 <= MAX_NUM && Node[..n] == nodes
      requires forall k :: 0 <= k < |db| ==> nodes[k + 1] == db[k].rid
      requires forall i, j :: 0 <= i < j < n ==> nodes[i] != nodes[j]
      requires Shows(nodes, {})
      modifies Graph
      ensures ok <==> forall k :: 0 <= k < |db| ==> EntryKnown(nodes, db[k])
      ensures ok ==> Shows(nodes, Links(db))
    {
      ghost var links := {};
      for k := 0 to |db|
        invariant links == Links(db[..k])
        invariant forall a :: 0 <= a < k ==> EntryKnown(nodes, db[a])
        invariant Shows(nodes, links)
      {
        assert db[k].rid == nodes[k + 1];
        LinksStep(db, k);
        ok := AddEntry(db[k], n, nodes, links);
        if !ok {
          return;
        }
        links := links + EntryLinks(db[k], db[k].nadv);
      }
      assert db[..|db|] == db;
      return true;
    }

    /** `caculate_graph`: one node per router, and the symmetric closure of the advertised links. */
    method BuildGraph(self: nat, db: seq<DbEntry>) returns (ok: bool, n: nat)
      requires Valid() && InBounds(db) && Distinct(self, db) && |db| < MAX_NUM
      modifies Graph, Node
      ensures n == |db| + 1
      ensures ok <==> NamesKnownRouters(self, db)
      ensures ok ==> Node[..n] == Nodes(self, db) && Holds(DbGraph(self, db), n)
    {
      n := CollectNodes(self, db);
      ok := AddEntries(db, n, Nodes(self, db));
    }

    /** `Min_dist`: a nearest open node; -1 is the place of the failing `assert(rank != -1)`. */
    method MinDist(n: nat) returns (rank: int)
      requires Valid() && n <= MAX_NUM
      ensures rank == -1 <==> forall v :: 0 <= v < n && !Visited[v] ==> MAX_INT <= Dist[v]
      ensures rank != -1 ==> 0 <= rank < n && !Visited[rank] && Dist[rank] < MAX_INT
      ensures rank != -1 ==> forall v :: 0 <= v < n && !Visited[v] ==> Dist[rank] <= Dist[v]
    {
      rank := -1;
      var min := MAX_INT;
      var i := 0;
      while i != n
        invariant 0 <= i <= n && min <= MAX_INT
        invariant rank == -1 <==> min == MAX_INT
        invariant rank != -1 ==> 0 <= rank < i && !Visited[rank] && Dist[rank] == min
        invariant forall v :: 0 <= v < i && !Visited[v] ==> min <= Dist[v]
      {
        if !Visited[i] && Dist[i] < min {
          min := Dist[i];
          rank := i;
        }
        i := i + 1;
      }
    }

    /** The initialisation loop of `Dijkstra`. */
    method InitDistances(ghost g: Matrix, n: nat)
      requires Valid() && 0 < n <= MAX_NUM && Weighted(g, n) && Holds(g, n)
      modifies Dist, Prev, Visited
      ensures Round(g, n, Dist[..n], Prev[..n], Visited[..n])
      ensures |VisitedSet(Visited[..n])| == 1
    {
      var i := 0;
      while i < n
        invariant 0 <= i <= n
        invariant forall v :: 0 <= v < i ==> !Visited[v] && Dist[v] == g[0][v]
        invariant forall v :: 0 <= v < i ==> Prev[v] == if g[0][v] == MAX_INT || g[0][v] == 0 then NO_PREV else 0
      {
        Visited[i] := false;
        Dist[i] := Graph[0, i];
        Prev[i] := if Dist[i] == MAX_INT || Dist[i] == 0 then NO_PREV else 0;
        i := i + 1;
      }
      Dist[0] := 0;
      Visited[0] := true;
      InitialRound(g, n, Dist[..n], Prev[..n], Visited[..n]);
    }

    /** The inner loop of `Dijkstra`, for the node just settled. */
    method Relax(ghost g: Matrix, n: nat, u: nat)
      requires Valid() && u < n <= MAX_NUM && Weighted(g, n) && Holds(g, n) && Visited[u]
      modifies Dist, Prev
      ensures forall v :: 0 <= v < n ==>
        Dist[v] == if Improves(g, old(Dist[..n]), Visited[..n], u, v) then old(Dist[u]) + g[u][v] else old(Dist[v])
      ensures forall v :: 0 <= v < n ==>
        Prev[v] == if Improves(g, old(Dist[..n]), Visited[..n], u, v) then u else old(Prev[v])
    {
      var v := 0;
      while v != n
        invariant 0 <= v <= n
        invariant forall w :: 0 <= w < n ==>
          Dist[w] == if w < v && Improves(g, old(Dist[..n]), Visited[..n], u, w) then old(Dist[u]) + g[u][w] else old(Dist[w])
        invariant forall w :: 0 <= w < n ==>
          Prev[w] == if w < v && Improves(g, old(Dist[..n]), Visited[..n], u, w) then u else old(Prev[w])
      {
        if !Visited[v] && Graph[u, v] > 0 && Dist[u] != MAX_INT && Dist[u] + Graph[u, v] < Dist[v] {
          Dist[v] := Dist[u] + Graph[u, v];
          Prev[v] := u;
        }
        v := v + 1;
      }
    }

    /** One iteration of the main loop of `Dijkstra`; false where the assertion of `Min_dist` fails. */
    method SettleNext(ghost g: Matrix, n: nat) returns (ok: bool)
      requires Valid() && 0 < n <= MAX_NUM && Weighted(g, n) && Holds(g, n)
      requires Round(g, n, Dist[..n], Prev[..n], Visited[..n])
      modifies Dist, Prev, Visited
      ensures ok ==> Round(g, n, Dist[..n], Prev[..n], Visited[..n])
      ensures ok ==> |VisitedSet(Visited[..n])| == |VisitedSet(old(Visited[..n]))| + 1
      ensures !ok ==> forall v :: 0 <= v < n && !old(Visited[..n])[v] ==> MAX_INT <= old(Dist[..n])[v]
    {
      ghost var dist, prev, vis := Dist[..n], Prev[..n], Visited[..n];
      var u := MinDist(n);
      if u == -1 {
        return false;
      }
      Visited[u] := true;
      assert Visited[..n] == vis[u := true];
      assert Dist[..n] == dist && Prev[..n] == prev;
      Relax(g, n, u);
      assert Visited[..n] == vis[u := true];
      assert Settles(g, n, dist, prev, vis, u, Dist[..n], Prev[..n]);
      NextRound(g, n, dist, prev, vis, u, Dist[..n], Prev[..n]);
      return true;
    }

    /** `Dijkstra`: the assertion in `Min_dist` holds throughout exactly when every node is within
        MAX_INT of node 0, and then `Dist` holds the distances and `Prev` a shortest-path tree. */
    method Dijkstra(ghost g: Matrix, n: nat) returns (ok: bool)
      requires Valid() && 0 < n <= MAX_NUM && Weighted(g, n) && Holds(g, n)
      modifies Dist, Prev, Visited
      ensures ok <==> AllReachable(g, n)
      ensures ok ==> Tree(g, n, Dist[..n], Prev[..n]) && Feasible(g, n, Dist[..n])
      ensures ok ==> Exact(g, n, Dist[..n])
    {
      InitDistances(g, n);
      var i := 0;
      while i != n - 1
        invariant 0 <= i <= n - 1
        invariant Round(g, n, Dist[..n], Prev[..n], Visited[..n])
        invariant |VisitedSet(Visited[..n])| == i + 1
      {
        ghost var dist, prev, vis := Dist[..n], Prev[..n], Visited[..n];
        var settled := SettleNext(g, n);
        if !settled {
          StuckMeansUnreachable(g, n, dist, prev, vis);
          return false;
        }
        i := i + 1;
      }
      AllSettled(g, n, Dist[..n], Prev[..n], Visited[..n]);
      return true;
    }

    /** The chase `while (Prev[hop]) hop = Prev[hop]` from any node but the source: it stops, at a
        neighbour of the source that is the first hop of a shortest path to the starting node. */
    method NextHop(ghost g: Matrix, n: nat, start: nat) returns (hop: nat)
      requires Valid() && n <= MAX_NUM && 0 < start < n && Weighted(g, n)
      requires Tree(g, n, Dist[..n], Prev[..n]) && Feasible(g, n, Dist[..n])
      requires Exact(g, n, Dist[..n])
      ensures 0 < hop < n && Edge(g, 0, hop) && Dist[hop] == g[0][hop]
      ensures Shortest(g, start, Dist[start]) && FirstHop(g, start, hop)
    {
      ghost var dist, prev := Dist[..n], Prev[..n];
      hop := start;
      ghost var q := [start];
      while Prev[hop] != 0
        invariant 0 < hop < n && Leads(g, dist, q, hop, start)
        decreases dist[hop]
      {
        LeadsBack(g, n, dist, prev, q, hop, start);
        q := [prev[hop]] + q;
        hop := Prev[hop];
      }
      LeadsToFirstHop(g, n, dist, prev, q, hop, start);
    }

    /** `caculate_graph` followed by `Dijkstra`. Both run to the end exactly when the database names
        only known routers and its links connect every one of them to this router. */
    method ComputePaths(self: nat, db: seq<DbEntry>) returns (ok: bool, n: nat)
      requires Valid() && InBounds(db) && Distinct(self, db) && |db| < MAX_NUM
      modifies Dist, Prev, Visited, Graph, Node
      ensures n == |db| + 1
      ensures ok <==> NamesKnownRouters(self, db) && forall v :: 0 <= v < n ==> Connected(self, db, v)
      ensures ok ==> Solved(self, db)
    {
      ok, n := BuildGraph(self, db);
      if !ok {
        return;
      }
      ok := Dijkstra(DbGraph(self, db), n);
      forall v | 0 <= v < n ensures Reachable(DbGraph(self, db), v) <==> Connected(self, db, v) {
        ReachableIsConnected(Nodes(self, db), Links(db), v);
      }
    }

    method Locate(self: nat, db: seq<DbEntry>, k: nat) returns (r: nat)
      requires Valid() && Distinct(self, db) && k < |db| < MAX_NUM
      requires Node[..|db| + 1] == Nodes(self, db)
      ensures r == k + 1
    {
      var n := |db| + 1;
      var i := GetNode(db[k].rid, n);
      ghost var nodes := Nodes(self, db);
      assert Node[k + 1] == Node[..n][k + 1] == nodes[k + 1];
      assert Node[i] == Node[..n][i] == nodes[i];
      r := i;
    }

    /** Distance and next hop, as positions, towards the router of entry `k`. */
    method FindRoute(self: nat, db: seq<DbEntry>, k: nat) returns (dist: nat, hop: nat)
      requires Valid() && InBounds(db) && Distinct(self, db) && k < |db| < MAX_NUM
      requires Solved(self, db)
      ensures hop <= |db| && Shortest(DbGraph(self, db), k + 1, dist) && FirstHop(DbGraph(self, db), k + 1, hop)
    {
      var start := Locate(self, db, k);
      dist := Dist[start];
      hop := NextHop(DbGraph(self, db), |db| + 1, start);
    }

    /** The next hop that `caculate_rtable_thread` finds towards the router of entry `k`: a router
        this one is linked to, first on a chain of advertised links as short as any. */
    method RouteTo(self: nat, db: seq<DbEntry>, k: nat) returns (dist: nat, via: nat)
      requires Valid() && InBounds(db) && Distinct(self, db) && k < |db| < MAX_NUM
      requires Solved(self, db)
      ensures Linked(Links(db), self, via)
      ensures ShortestChainVia(self, db, db[k].rid, dist, via)
    {
      var hop;
      dist, hop := FindRoute(self, db, k);
      via := Node[hop];
      assert via == Node[..|db| + 1][hop];
      HopsFromMatrix(self, db, k + 1, dist, hop);
    }
  }
}
