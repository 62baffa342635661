/** A router's own update coming back to it: flooding in a fixed network, where each copy goes to the
    router that owns the address it is sent to. */
module MospfEcho {
  import opened MospfDaemon
  import opened MospfFlooding
  import opened Wrappers

  /** Where packets to an address come in: a router and the index of one of its interfaces. */
  datatype Home = Home(rid: nat, inIndex: nat)

  /** Interfaces with their neighbours by router id, and the owners of addresses. */
  datatype Net = Net(routers: map<nat, seq<Iface>>, homes: bv32 -> Option<Home>)

  /** Copies in flight, and the routers that hold their lock for ever. */
  datatype State = State(flight: seq<Copy>, stuck: set<nat>)

  datatype Move = Arrives(j: nat) | Vanishes(j: nat)

  ghost predicate Deliverable(net: Net, s: State, c: Copy) {
    net.homes(c.dst).Some? && net.homes(c.dst).value.rid in net.routers && net.homes(c.dst).value.rid !in s.stuck
  }

  ghost function ReceiverOf(net: Net, dst: bv32): Receiver
    requires net.homes(dst).Some? && net.homes(dst).value.rid in net.routers
  {
    Receiver(net.homes(dst).value.rid, net.routers[net.homes(dst).value.rid], net.homes(dst).value.inIndex)
  }

  /** One copy reaches the owner of its address and is handled there as `HandleLsu` does, or is lost. A
      copy for a stuck router, or for nobody, waits. */
  ghost function Moved(net: Net, s: State, m: Move): State {
    if m.j >= |s.flight| then s
    else
      match m
      case Vanishes(j) => s.(flight := Without(s.flight, j))
      case Arrives(j) =>
        var c := s.flight[j];
        if !Deliverable(net, s, c) then s
        else
          var to := ReceiverOf(net, c.dst);
          State(After(s.flight, Deliver(j, to)), if c.lsu.rid == to.self then s.stuck + {to.self} else s.stuck)
  }

  ghost function MovedAll(net: Net, s: State, ms: seq<Move>): State {
    if ms == [] then s else Moved(net, MovedAll(net, s, ms[..|ms| - 1]), ms[|ms| - 1])
  }

  /** The moment after `SendLsu` at the origin of the update. */
  ghost function Sent(net: Net, u: Lsu): State
    requires u.rid in net.routers
  {
    State(Copies(net.routers[u.rid], |net.routers[u.rid]|, None, u), {})
  }

  // ----- ways through the network -----

  /** A router sends to a neighbour at `dst` through the interface with index `via`. */
  datatype Hop = Hop(at: nat, via: nat, dst: bv32)

  ghost predicate IsHop(net: Net, h: Hop) {
    && h.at in net.routers
    && var ifaces := net.routers[h.at];
       exists i :: 0 <= i < |ifaces| && ifaces[i].index == h.via && Knows(ifaces[i].nbrs, h.dst)
  }

  /** `g` leaves the router that `h` leads to, through another interface. */
  ghost predicate Joins(net: Net, h: Hop, g: Hop) {
    net.homes(h.dst).Some? && net.homes(h.dst).value.rid == g.at && net.homes(h.dst).value.inIndex != g.via
  }

  ghost predicate GoesOn(net: Net, origin: nat, hops: seq<Hop>, i: nat)
    requires i + 1 < |hops|
  {
    Joins(net, hops[i], hops[i + 1]) && hops[i + 1].at != origin
  }

  /** A way that starts at the origin and then stays away from it, never turning back at once. */
  ghost predicate Trail(net: Net, origin: nat, hops: seq<Hop>) {
    && hops != [] && hops[0].at == origin
    && (forall i :: 0 <= i < |hops| ==> IsHop(net, hops[i]))
    && (forall i :: 0 <= i < |hops| - 1 ==> GoesOn(net, origin, hops, i))
  }

  /** A way from the origin back to it. */
  ghost predicate Cycle(net: Net, origin: nat, hops: seq<Hop>) {
    Trail(net, origin, hops) && LeadsTo(net, hops[|hops| - 1], origin)
  }

  ghost predicate LeadsTo(net: Net, h: Hop, rid: nat) {
    net.homes(h.dst).Some? && net.homes(h.dst).value.rid == rid
  }

  /** The copy on the last hop of a way. */
  ghost predicate CopyOn(c: Copy, u: Lsu, hops: seq<Hop>) {
    && 0 < |hops| <= u.ttl
    && c == Copy(hops[|hops| - 1].via, hops[|hops| - 1].dst, u.(ttl := u.ttl - (|hops| - 1)))
  }

  // ----- a cycle brings the update back -----

  lemma FirstHopSent(net: Net, u: Lsu, h: Hop)
    requires u.rid in net.routers && IsHop(net, h) && h.at == u.rid
    ensures Copy(h.via, h.dst, u) in Sent(net, u).flight
  {
    CopiesMeaning(net.routers[h.at], |net.routers[h.at]|, None, u, Copy(h.via, h.dst, u));
  }

  lemma HopForwards(net: Net, s: State, j: nat, h: Hop, g: Hop)
    requires j < |s.flight| && s.flight[j].dst == h.dst && 2 <= s.flight[j].lsu.ttl <= MAX_LSU_TTL
    requires Joins(net, h, g) && IsHop(net, g) && s.flight[j].lsu.rid != g.at && g.at !in s.stuck
    ensures var u, next := s.flight[j].lsu, Moved(net, s, Arrives(j));
            next.stuck == s.stuck && Copy(g.via, g.dst, u.(ttl := u.ttl - 1)) in next.flight
  {
    var u, to := s.flight[j].lsu, ReceiverOf(net, h.dst);
    var c := Copy(g.via, g.dst, u.(ttl := u.ttl - 1));
    CopiesMeaning(to.ifaces, |to.ifaces|, Some(to.inIndex), c.lsu, c);
    assert c in Forwarded(to.self, to.ifaces, to.inIndex, u);
  }

  lemma TrailPrefix(net: Net, origin: nat, hops: seq<Hop>)
    requires Trail(net, origin, hops) && |hops| > 1
    ensures Trail(net, origin, hops[..|hops| - 1])
    ensures Joins(net, hops[|hops| - 2], hops[|hops| - 1]) && hops[|hops| - 1].at != origin
  {
    var p := hops[..|hops| - 1];
    assert GoesOn(net, origin, hops, |hops| - 2);
    forall i | 0 <= i < |p| - 1 ensures GoesOn(net, origin, p, i) {
      assert GoesOn(net, origin, hops, i);
    }
  }

  lemma OneMove(net: Net, s: State, ms: seq<Move>, m: Move)
    ensures MovedAll(net, s, ms + [m]) == Moved(net, MovedAll(net, s, ms), m)
  {
    assert (ms + [m])[..|ms|] == ms;
  }

  /** The copy of the last hop can be brought into flight, with no router stuck. */
  lemma {:induction false} UpdateTravels(net: Net, u: Lsu, hops: seq<Hop>) returns (ms: seq<Move>)
    requires u.rid in net.routers && u.ttl == MAX_LSU_TTL && |hops| <= MAX_LSU_TTL && Trail(net, u.rid, hops)
    ensures var s := MovedAll(net, Sent(net, u), ms);
            s.stuck == {} && exists j :: 0 <= j < |s.flight| && CopyOn(s.flight[j], u, hops)
    decreases |hops|
  {
    if |hops| == 1 {
      ms := [];
      assert IsHop(net, hops[0]);
      FirstHopSent(net, u, hops[0]);
      var c := Copy(hops[0].via, hops[0].dst, u);
      var j :| 0 <= j < |Sent(net, u).flight| && Sent(net, u).flight[j] == c;
      assert CopyOn(c, u, hops);
    } else {
      var h, g := hops[|hops| - 2], hops[|hops| - 1];
      TrailPrefix(net, u.rid, hops);
      ms := UpdateTravels(net, u, hops[..|hops| - 1]);
      var s := MovedAll(net, Sent(net, u), ms);
      var j :| 0 <= j < |s.flight| && CopyOn(s.flight[j], u, hops[..|hops| - 1]);
      assert IsHop(net, g);
      ms := TravelsOn(net, u, ms, s, j, hops);
    }
  }

  lemma TravelsOn(net: Net, u: Lsu, before: seq<Move>, s: State, j: nat, hops: seq<Hop>) returns (ms: seq<Move>)
    requires u.rid in net.routers && u.ttl == MAX_LSU_TTL && 2 <= |hops| <= MAX_LSU_TTL
    requires s == MovedAll(net, Sent(net, u), before) && s.stuck == {}
    requires j < |s.flight| && CopyOn(s.flight[j], u, hops[..|hops| - 1])
    requires Joins(net, hops[|hops| - 2], hops[|hops| - 1]) && IsHop(net, hops[|hops| - 1]) && hops[|hops| - 1].at != u.rid
    ensures var s := MovedAll(net, Sent(net, u), ms);
            s.stuck == {} && exists j :: 0 <= j < |s.flight| && CopyOn(s.flight[j], u, hops)
  {
    var h, g := hops[|hops| - 2], hops[|hops| - 1];
    HopForwards(net, s, j, h, g);
    ms := before + [Arrives(j)];
    OneMove(net, Sent(net, u), before, Arrives(j));
    var next, v := Moved(net, s, Arrives(j)), s.flight[j].lsu;
    var c := Copy(g.via, g.dst, v.(ttl := v.ttl - 1));
    var i :| 0 <= i < |next.flight| && next.flight[i] == c;
    assert CopyOn(c, u, hops);
  }

  lemma CycleMakesStuck(net: Net, u: Lsu, hops: seq<Hop>) returns (ms: seq<Move>)
    requires u.rid in net.routers && u.ttl == MAX_LSU_TTL && |hops| <= MAX_LSU_TTL && Cycle(net, u.rid, hops)
    ensures u.rid in MovedAll(net, Sent(net, u), ms).stuck
  {
    ms := UpdateTravels(net, u, hops);
    var s := MovedAll(net, Sent(net, u), ms);
    var j :| 0 <= j < |s.flight| && CopyOn(s.flight[j], u, hops);
    OneMove(net, Sent(net, u), ms, Arrives(j));
    ms := ms + [Arrives(j)];
  }

  // ----- nothing but a cycle does -----

  ghost predicate OnTrail(net: Net, u: Lsu, c: Copy) {
    exists hops :: Trail(net, u.rid, hops) && CopyOn(c, u, hops)
  }

  ghost predicate HasCycle(net: Net, origin: nat) {
    exists hops :: Cycle(net, origin, hops) && |hops| <= MAX_LSU_TTL
  }

  /** Every copy in flight got there along a way, and nobody is stuck but the origin, by a cycle. */
  ghost predicate Explained(net: Net, u: Lsu, s: State) {
    && (forall c :: c in s.flight ==> OnTrail(net, u, c))
    && (forall r :: r in s.stuck ==> r == u.rid && HasCycle(net, u.rid))
  }

  lemma SentExplained(net: Net, u: Lsu)
    requires u.rid in net.routers && u.ttl == MAX_LSU_TTL
    ensures Explained(net, u, Sent(net, u))
  {
    var ifaces := net.routers[u.rid];
    forall c | c in Sent(net, u).flight ensures OnTrail(net, u, c) {
      CopiesMeaning(ifaces, |ifaces|, None, u, c);
      var hops := [Hop(u.rid, c.via, c.dst)];
      assert IsHop(net, hops[0]);
      assert Trail(net, u.rid, hops) && CopyOn(c, u, hops);
    }
  }

  lemma TrailExtends(net: Net, origin: nat, hops: seq<Hop>, g: Hop)
    requires Trail(net, origin, hops) && IsHop(net, g) && Joins(net, hops[|hops| - 1], g) && g.at != origin
    ensures Trail(net, origin, hops + [g])
  {
    var all := hops + [g];
    forall i | 0 <= i < |all| - 1 ensures GoesOn(net, origin, all, i) {
      if i < |hops| - 1 { assert GoesOn(net, origin, hops, i); }
    }
  }

  /** What a receiver forwards leaves it on a hop that joins the one it came in on. */
  lemma ForwardedHop(net: Net, h: Hop, u: Lsu, to: Receiver, d: Copy)
    requires net.homes(h.dst).Some? && net.homes(h.dst).value.rid in net.routers && to == ReceiverOf(net, h.dst)
    requires 1 <= u.ttl <= MAX_LSU_TTL && d in Forwarded(to.self, to.ifaces, to.inIndex, u)
    ensures to.self != u.rid && u.ttl > 1 && d.lsu == u.(ttl := u.ttl - 1)
    ensures IsHop(net, Hop(to.self, d.via, d.dst)) && Joins(net, h, Hop(to.self, d.via, d.dst))
  {
    CopiesMeaning(to.ifaces, |to.ifaces|, Some(to.inIndex), u.(ttl := Decrement(u.ttl)), d);
  }

  /** A copy that a receiver forwards is on the way of the copy it received, one hop on. */
  lemma ForwardedOnTrail(net: Net, u: Lsu, c: Copy, to: Receiver, d: Copy)
    requires u.ttl == MAX_LSU_TTL && OnTrail(net, u, c)
    requires net.homes(c.dst).Some? && net.homes(c.dst).value.rid in net.routers && to == ReceiverOf(net, c.dst)
    requires d in Forwarded(to.self, to.ifaces, to.inIndex, c.lsu)
    ensures OnTrail(net, u, d)
  {
    var hops :| Trail(net, u.rid, hops) && CopyOn(c, u, hops);
    var g := Hop(to.self, d.via, d.dst);
    ForwardedHop(net, hops[|hops| - 1], c.lsu, to, d);
    TrailExtends(net, u.rid, hops, g);
    var all := hops + [g];
    assert all[|all| - 1] == g && CopyOn(d, u, all);
  }

  lemma ArrivalExplained(net: Net, u: Lsu, s: State, j: nat)
    requires u.ttl == MAX_LSU_TTL && Explained(net, u, s) && j < |s.flight| && Deliverable(net, s, s.flight[j])
    ensures Explained(net, u, Moved(net, s, Arrives(j)))
  {
    var c := s.flight[j];
    var to, next := ReceiverOf(net, c.dst), Moved(net, s, Arrives(j));
    assert c in s.flight;
    forall d | d in next.flight ensures OnTrail(net, u, d) {
      if d !in s.flight { ForwardedOnTrail(net, u, c, to, d); }
    }
    if c.lsu.rid == to.self {
      var hops :| Trail(net, u.rid, hops) && CopyOn(c, u, hops);
      assert Cycle(net, u.rid, hops);
    }
  }

  lemma {:induction false} RunExplained(net: Net, u: Lsu, ms: seq<Move>)
    requires u.rid in net.routers && u.ttl == MAX_LSU_TTL
    ensures Explained(net, u, MovedAll(net, Sent(net, u), ms))
  {
    if ms == [] {
      SentExplained(net, u);
    } else {
      var m := |ms| - 1;
      RunExplained(net, u, ms[..m]);
      var s := MovedAll(net, Sent(net, u), ms[..m]);
      if ms[m].Arrives? && ms[m].j < |s.flight| && Deliverable(net, s, s.flight[ms[m].j]) {
        ArrivalExplained(net, u, s, ms[m].j);
      }
    }
  }

  /** Some run of deliveries and losses makes a router stuck by its own update exactly if the network has
      a way from the router back to it, through at most 254 others and never turning back at once; and no
      run makes any other router stuck. */
  lemma StuckExactlyOnCycles(net: Net, u: Lsu)
    requires u.rid in net.routers && u.ttl == MAX_LSU_TTL
    ensures (exists ms :: u.rid in MovedAll(net, Sent(net, u), ms).stuck) <==> HasCycle(net, u.rid)
    ensures forall ms, r :: r in MovedAll(net, Sent(net, u), ms).stuck ==> r == u.rid
  {
    forall ms, r | r in MovedAll(net, Sent(net, u), ms).stuck ensures r == u.rid && HasCycle(net, u.rid) {
      RunExplained(net, u, ms);
    }
    if HasCycle(net, u.rid) {
      var hops :| Cycle(net, u.rid, hops) && |hops| <= MAX_LSU_TTL;
      var ms := CycleMakesStuck(net, u, hops);
    }
  }

  /** An interface with one neighbour. */
  function Wire(index: nat, own: bv32, id: nat, far: bv32): Iface {
    Iface(index, own, 0xFFFF_FF00, 1, [Nbr(id, far, 0xFFFF_FF00, 0)])
  }

  function TriangleHome(a: bv32): Option<Home> {
    if a == 12 then Some(Home(1, 0)) else if a == 13 then Some(Home(1, 1))
    else if a == 21 then Some(Home(2, 0)) else if a == 23 then Some(Home(2, 1))
    else if a == 31 then Some(Home(3, 1)) else if a == 32 then Some(Home(3, 0))
    else None
  }

  /** Routers 1, 2 and 3, each linked to the other two; address 12 is the end of link 1-2 at router 1. */
  function Triangle(): Net {
    Net(map[1 := [Wire(0, 12, 2, 21), Wire(1, 13, 3, 31)],
            2 := [Wire(0, 21, 1, 12), Wire(1, 23, 3, 32)],
            3 := [Wire(0, 32, 2, 23), Wire(1, 31, 1, 13)]],
        TriangleHome)
  }

  lemma OneNeighbour(h: Hop, i: nat)
    requires h.at in Triangle().routers && i < 2
    requires var f := Triangle().routers[h.at]; |f| == 2 && f[i].index == h.via && |f[i].nbrs| == 1 && f[i].nbrs[0].ip == h.dst
    ensures IsHop(Triangle(), h)
  {
    assert Knows(Triangle().routers[h.at][i].nbrs, h.dst);
  }

  /** From router 1 over 2 and 3 back to 1. */
  function Round(): seq<Hop> {
    [Hop(1, 0, 21), Hop(2, 1, 32), Hop(3, 1, 13)]
  }

  lemma RoundHops(i: nat)
    requires i < 3
    ensures IsHop(Triangle(), Round()[i])
  {
    OneNeighbour(Round()[i], if i == 0 then 0 else 1);
  }

  lemma RoundGoesOn(i: nat)
    requires i < 2
    ensures GoesOn(Triangle(), 1, Round(), i)
  {
  }

  lemma RoundIsCycle()
    ensures Cycle(Triangle(), 1, Round())
  {
    forall i | 0 <= i < 3 ensures IsHop(Triangle(), Round()[i]) { RoundHops(i); }
    forall i | 0 <= i < 2 ensures GoesOn(Triangle(), 1, Round(), i) { RoundGoesOn(i); }
  }

  /** Three routers in a triangle are enough: an update of router 1 goes round and leaves router 1 stuck. */
  lemma TriangleGetsStuck(u: Lsu) returns (ms: seq<Move>)
    requires u.rid == 1 && u.ttl == MAX_LSU_TTL
    ensures 1 in Triangle().routers && 1 in MovedAll(Triangle(), Sent(Triangle(), u), ms).stuck
  {
    RoundIsCycle();
    ms := CycleMakesStuck(Triangle(), u, Round());
  }
}
