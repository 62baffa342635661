/** Forwarding hop by hop, each router by the next hop it computed from its own database. */
module MospfForwarding {
  import opened MospfDatabase
  import opened MospfTopology

  /** The database of router `self` knows these routers and, taken both ways, these wires. */
  ghost predicate Agrees(self: nat, db: seq<DbEntry>, routers: set<nat>, wires: set<(nat, nat)>) {
    && InBounds(db)
    && Members(Nodes(self, db)) == routers
    && (forall p: nat, q: nat :: Linked(Links(db), p, q) <==> (p, q) in wires)
  }

  /** The database holds what every router but its owner advertises, that is, its end of its wires. */
  ghost predicate HoldsOthersAdverts(self: nat, db: seq<DbEntry>, wires: set<(nat, nat)>) {
    InBounds(db) && forall p: nat, q: nat :: (p, q) in Links(db) <==> (p, q) in wires && p != self
  }

  /** A router need not store its own advertisement: the far ends of its wires advertise them too. */
  lemma OwnAdvertNotNeeded(self: nat, db: seq<DbEntry>, wires: set<(nat, nat)>, p: nat, q: nat)
    requires HoldsOthersAdverts(self, db, wires)
    requires forall x, y :: (x, y) in wires ==> (y, x) in wires && x != y
    ensures Linked(Links(db), p, q) <==> (p, q) in wires
  {
    assert (p, q) in Links(db) <==> (p, q) in wires && p != self;
    assert (q, p) in Links(db) <==> (q, p) in wires && q != self;
  }

  lemma SameRouters(a: nat, dbA: seq<DbEntry>, b: nat, dbB: seq<DbEntry>, routers: set<nat>, wires: set<(nat, nat)>, x: nat)
    requires Agrees(a, dbA, routers, wires) && Agrees(b, dbB, routers, wires)
    ensures x in Nodes(a, dbA) <==> x in Nodes(b, dbB)
  {
    assert x in Nodes(a, dbA) <==> x in Members(Nodes(a, dbA));
    assert x in Nodes(b, dbB) <==> x in Members(Nodes(b, dbB));
  }

  lemma ChainElsewhere(a: nat, dbA: seq<DbEntry>, b: nat, dbB: seq<DbEntry>, routers: set<nat>, wires: set<(nat, nat)>,
                       r: seq<nat>)
    requires Agrees(a, dbA, routers, wires) && Agrees(b, dbB, routers, wires)
    requires Chain(Links(dbA), r)
    ensures Chain(Links(dbB), r)
  {
    forall i | 0 <= i < |r| - 1 ensures Link(Links(dbB), r, i) {
      assert Link(Links(dbA), r, i);
      assert (r[i], r[i + 1]) in wires;
    }
  }

  /** What is left of a chain after its first hop, seen from the next router. */
  lemma ChainTail(a: nat, dbA: seq<DbEntry>, b: nat, dbB: seq<DbEntry>, routers: set<nat>, wires: set<(nat, nat)>,
                  r: seq<nat>, dest: nat)
    requires Agrees(a, dbA, routers, wires) && Agrees(b, dbB, routers, wires)
    requires RouterChain(a, dbA, r, dest) && |r| > 1 && r[1] == b
    ensures RouterChain(b, dbB, r[1..], dest) && Linked(Links(dbA), a, b)
  {
    ChainElsewhere(a, dbA, b, dbB, routers, wires, r);
    assert Link(Links(dbA), r, 0);
    forall i | 0 <= i < |r[1..]| - 1 ensures Link(Links(dbB), r[1..], i) {
      assert Link(Links(dbB), r, i + 1);
    }
    forall i | 1 <= i < |r| ensures r[i] in Nodes(b, dbB) {
      SameRouters(a, dbA, b, dbB, routers, wires, r[i]);
    }
  }

  /** A chain of the next router, with this router put in front. */
  lemma ChainInFront(a: nat, dbA: seq<DbEntry>, b: nat, dbB: seq<DbEntry>, routers: set<nat>, wires: set<(nat, nat)>,
                     r: seq<nat>, dest: nat)
    requires Agrees(a, dbA, routers, wires) && Agrees(b, dbB, routers, wires)
    requires RouterChain(b, dbB, r, dest) && Linked(Links(dbA), a, b)
    ensures RouterChain(a, dbA, [a] + r, dest)
  {
    ChainElsewhere(b, dbB, a, dbA, routers, wires, r);
    var s := [a] + r;
    forall i | 0 <= i < |s| - 1 ensures Link(Links(dbA), s, i) {
      if i > 0 { assert Link(Links(dbA), r, i - 1); }
    }
    assert a in Nodes(a, dbA) by { assert Nodes(a, dbA)[0] == a; }
    forall i | 0 <= i < |s| ensures s[i] in Nodes(a, dbA) {
      if i > 0 { SameRouters(a, dbA, b, dbB, routers, wires, r[i - 1]); }
    }
  }

  /** The next hop, by its own database, is one hop nearer to the destination. */
  lemma NextHopIsNearer(a: nat, dbA: seq<DbEntry>, b: nat, dbB: seq<DbEntry>, routers: set<nat>, wires: set<(nat, nat)>,
                        dest: nat, d: nat)
    requires Agrees(a, dbA, routers, wires) && Agrees(b, dbB, routers, wires)
    requires ShortestChainVia(a, dbA, dest, d, b)
    ensures d > 0 && FewestHops(b, dbB, dest, d - 1)
  {
    var r :| RouterChain(a, dbA, r, dest) && |r| == d + 1 && |r| > 1 && r[1] == b;
    ChainTail(a, dbA, b, dbB, routers, wires, r, dest);
    forall s | RouterChain(b, dbB, s, dest) ensures d <= |s| {
      ChainInFront(a, dbA, b, dbB, routers, wires, s, dest);
    }
  }

  ghost function Hop(via: map<nat, nat>, x: nat): nat {
    if x in via then via[x] else x
  }

  /** Where a packet is after `n` hops. */
  ghost function After(via: map<nat, nat>, x: nat, n: nat): nat {
    if n == 0 then x else Hop(via, After(via, x, n - 1))
  }

  /** All databases agree. */
  ghost predicate Converged(dbs: map<nat, seq<DbEntry>>, wires: set<(nat, nat)>) {
    forall x :: x in dbs ==> Agrees(x, dbs[x], dbs.Keys, wires)
  }

  /** Router `x` is `d` hops from `dest`, by its own database. */
  ghost predicate Away(dbs: map<nat, seq<DbEntry>>, x: nat, dest: nat, d: nat) {
    x in dbs && InBounds(dbs[x]) && FewestHops(x, dbs[x], dest, d)
  }

  /** `hop` starts a shortest chain of links from `x` to `dest`, as `RouteTo` promises. */
  ghost predicate StartsShortest(x: nat, db: seq<DbEntry>, dest: nat, hop: nat) {
    InBounds(db) && exists d :: ShortestChainVia(x, db, dest, d, hop)
  }

  /** Every router but the destination has such a next hop. */
  ghost predicate Routed(dbs: map<nat, seq<DbEntry>>, via: map<nat, nat>, dest: nat) {
    forall x :: x in dbs && x != dest ==> x in via && StartsShortest(x, dbs[x], dest, via[x])
  }

  lemma HopsUnique(x: nat, db: seq<DbEntry>, dest: nat, d: nat, e: nat)
    requires InBounds(db) && FewestHops(x, db, dest, d) && FewestHops(x, db, dest, e)
    ensures d == e
  {
  }

  lemma NoHopsFromHere(x: nat, db: seq<DbEntry>, dest: nat, d: nat)
    requires InBounds(db) && FewestHops(x, db, dest, d)
    ensures x == dest <==> d == 0
  {
    assert Nodes(x, db)[0] == x;
    assert RouterChain(x, db, [x], x);
  }

  lemma HopIsNode(x: nat, db: seq<DbEntry>, dest: nat, d: nat, hop: nat)
    requires InBounds(db) && ShortestChainVia(x, db, dest, d, hop)
    ensures hop in Nodes(x, db)
  {
    var r :| RouterChain(x, db, r, dest) && |r| == d + 1 && |r| > 1 && r[1] == hop;
  }

  lemma ArrivedIffZero(dbs: map<nat, seq<DbEntry>>, x: nat, dest: nat, d: nat)
    requires Away(dbs, x, dest, d)
    ensures x == dest <==> d == 0
  {
    NoHopsFromHere(x, dbs[x], dest, d);
  }

  /** One hop: the packet moves to a router of the network, one hop nearer. */
  lemma OneHop(dbs: map<nat, seq<DbEntry>>, wires: set<(nat, nat)>, x: nat, hop: nat, dest: nat, d: nat)
    requires Converged(dbs, wires) && Away(dbs, x, dest, d) && StartsShortest(x, dbs[x], dest, hop)
    ensures d > 0 && Away(dbs, hop, dest, d - 1)
  {
    var e :| ShortestChainVia(x, dbs[x], dest, e, hop);
    HopsUnique(x, dbs[x], dest, d, e);
    HopIsNode(x, dbs[x], dest, d, hop);
    assert Agrees(x, dbs[x], dbs.Keys, wires);
    assert hop in Members(Nodes(x, dbs[x]));
    assert Agrees(hop, dbs[hop], dbs.Keys, wires);
    NextHopIsNearer(x, dbs[x], hop, dbs[hop], dbs.Keys, wires, dest, d);
  }

  /** Every hop brings a packet for `dest` one hop nearer. */
  ghost predicate Progress(dbs: map<nat, seq<DbEntry>>, via: map<nat, nat>, dest: nat) {
    forall x: nat, d: nat :: Away(dbs, x, dest, d) && d > 0 ==> Away(dbs, Hop(via, x), dest, d - 1)
  }

  lemma EveryHopProgresses(dbs: map<nat, seq<DbEntry>>, wires: set<(nat, nat)>, via: map<nat, nat>, dest: nat)
    requires Converged(dbs, wires) && Routed(dbs, via, dest)
    ensures Progress(dbs, via, dest)
  {
    forall x: nat, d: nat | Away(dbs, x, dest, d) && d > 0 ensures Away(dbs, Hop(via, x), dest, d - 1) {
      ArrivedIffZero(dbs, x, dest, d);
      OneHop(dbs, wires, x, Hop(via, x), dest, d);
    }
  }

  lemma {:induction false} NearerByHops(dbs: map<nat, seq<DbEntry>>, via: map<nat, nat>, dest: nat, x: nat, d: nat, n: nat)
    requires Progress(dbs, via, dest) && Away(dbs, x, dest, d) && n <= d
    ensures Away(dbs, After(via, x, n), dest, d - n)
  {
    if n > 0 {
      NearerByHops(dbs, via, dest, x, d, n - 1);
    }
  }

  /** With agreeing databases forwarding never loops: after `n` hops a packet is exactly `n` hops
      nearer, so that it is at its destination after as many hops as its distance and not before. */
  lemma ForwardingArrives(dbs: map<nat, seq<DbEntry>>, wires: set<(nat, nat)>, via: map<nat, nat>,
                          dest: nat, x: nat, d: nat, n: nat)
    requires Converged(dbs, wires) && Routed(dbs, via, dest) && Away(dbs, x, dest, d) && n <= d
    ensures Away(dbs, After(via, x, n), dest, d - n)
    ensures After(via, x, n) == dest <==> n == d
  {
    EveryHopProgresses(dbs, wires, via, dest);
    NearerByHops(dbs, via, dest, x, d, n);
    ArrivedIffZero(dbs, After(via, x, n), dest, d - n);
  }
}
