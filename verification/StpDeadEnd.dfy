/** Switches that nothing can change any more, and a run in which one of them is wrong for good. */
module StpDeadEnd {
  import opened StpBridge
  import opened StpNetwork

  // ----- nothing better to hear -----

  /** No pair (root, cost) that switch `s` could back by a walk is better than the given one. */
  ghost predicate Unbeatable(t: Topology, s: nat, root: nat, cost: nat) {
    forall r: nat, c: nat :: Witnessed(t, s, r, c) ==> root < r || (root == r && cost <= c)
  }

  /** Every linked port already remembers the best its peer could ever announce. */
  ghost predicate HeardTheBest(t: Topology, s: nat, b: Bridge) {
    forall p: nat :: p < |b.ports| && End(s, p) in t.peer ==> RemembersBest(t, End(s, p), b.ports[p].v)
  }

  ghost predicate RemembersBest(t: Topology, e: End, v: Vector)
    requires e in t.peer
  {
    FromPeer(t, e, v) && Unbeatable(t, t.peer[e].sw, v.root, v.cost)
  }

  lemma StepFrozen(t: Topology, n: Network, x: Step, s: nat)
    requires NetworkTrue(t, n) && Enabled(n, x) && s < |n.bridges| && HeardTheBest(t, s, n.bridges[s])
    ensures Take(t, n, x).bridges[s] == n.bridges[s]
  {
    if x.Deliver? && x.m.to.sw == s {
      var m, b := x.m, n.bridges[s];
      assert FromPeer(t, m.to, m.v);
      assert RemembersBest(t, End(s, m.to.port), b.ports[m.to.port].v);
      assert !Prior(m.v, b.ports[m.to.port].v);
    }
  }

  /** A switch whose linked ports have all heard the best their peers could ever announce keeps belief,
      root port and port vectors in every continuation, whatever is sent, lost or repeated. */
  lemma {:induction false} FrozenForGood(t: Topology, n: Network, xs: seq<Step>, s: nat)
    requires NetworkTrue(t, n) && IsRun(t, n, xs) && s < |n.bridges| && HeardTheBest(t, s, n.bridges[s])
    ensures Reached(t, n, xs).bridges[s] == n.bridges[s]
    decreases |xs|
  {
    if xs != [] {
      StepTrue(t, n, xs[0]);
      StepFrozen(t, n, xs[0], s);
      FrozenForGood(t, Take(t, n, xs[0]), xs[1..], s);
    }
  }

  // ----- building a run step by step -----

  lemma {:induction false} OneMoreStep(t: Topology, n: Network, xs: seq<Step>, x: Step)
    requires NetworkTrue(t, n) && IsRun(t, n, xs) && Enabled(Reached(t, n, xs), x)
    ensures IsRun(t, n, xs + [x]) && Reached(t, n, xs + [x]) == Take(t, Reached(t, n, xs), x)
    decreases |xs|
  {
    var all := xs + [x];
    if xs == [] {
      assert all[0] == x && all[1..] == [];
      StepTrue(t, n, x);
    } else {
      assert all[0] == xs[0] && all[1..] == xs[1..] + [x];
      StepTrue(t, n, xs[0]);
      OneMoreStep(t, Take(t, n, xs[0]), xs[1..], x);
    }
  }

  lemma AnnouncedOnWire(t: Topology, s: nat, b: Bridge, i: nat)
    requires i < |b.ports| && IsDesignated(b, i) && MaySend(b) && End(s, i) in t.peer
    ensures Message(t.peer[End(s, i)], Announcement(b, i)) in OnWire(t, s, Announcements(b, |b.ports|))
  {
    var out := Announcements(b, |b.ports|);
    AnnouncementsMeaning(b, |b.ports|, i, Announcement(b, i));
    var j :| 0 <= j < |out| && out[j] == (i, Announcement(b, i));
  }

  // ----- the chain 1 - 4 - 9 -----

  /** Switch 9 has a second port with nothing connected to it. */
  function Chain(): Topology {
    Topology([1, 4, 9], [1, 2, 2],
             map[End(0, 0) := End(1, 0), End(1, 0) := End(0, 0), End(1, 1) := End(2, 0), End(2, 0) := End(1, 1)])
  }

  function Middle(): Bridge {
    Bridge(4, 1, 1, 0, [Port(PortId(0), 1, Vector(1, 0, 1, PortId(0))), Port(PortId(1), 1, Vector(1, 1, 4, PortId(1)))])
  }

  function Follower(): Bridge {
    Bridge(9, 4, 1, 0, [Port(PortId(0), 1, Vector(4, 0, 4, PortId(1))), Port(PortId(1), 1, Vector(4, 1, 9, PortId(1)))])
  }

  function Pretender(): Bridge {
    Bridge(9, 9, 0, 0, [Port(PortId(0), 1, Vector(1, 1, 4, PortId(1))), Port(PortId(1), 1, Vector(9, 0, 9, PortId(1)))])
  }

  lemma MiddleLearns()
    ensures Handled(InitBridge(4, 2), 0, Vector(1, 0, 1, PortId(0))) == Middle()
  {
    var l := Learned(InitBridge(4, 2), 0, Vector(1, 0, 1, PortId(0)));
    assert Candidate(l, 0) && !Candidate(l, 1);
    assert Pick(l, 0) == -1 && Pick(l, 1) == 0 && Pick(l, 2) == 0;
    assert Refreshed(Elected(l)).ports == Middle().ports;
  }

  lemma NineFollows()
    ensures Handled(InitBridge(9, 2), 0, Vector(4, 0, 4, PortId(1))) == Follower()
  {
    var l := Learned(InitBridge(9, 2), 0, Vector(4, 0, 4, PortId(1)));
    assert Candidate(l, 0) && !Candidate(l, 1);
    assert Pick(l, 0) == -1 && Pick(l, 1) == 0 && Pick(l, 2) == 0;
    assert Refreshed(Elected(l)).ports == Follower().ports;
  }

  lemma NinePretends()
    ensures Handled(Follower(), 0, Vector(1, 1, 4, PortId(1))) == Pretender()
  {
    var l := Learned(Follower(), 0, Vector(1, 1, 4, PortId(1)));
    assert !Candidate(l, 0) && !Candidate(l, 1);
    assert Pick(l, 0) == -1 && Pick(l, 1) == -1 && Pick(l, 2) == -1;
    assert Refreshed(Elected(l)).ports == Pretender().ports;
  }

  /** The four ends of the two cables. */
  lemma ChainEnds(e: End)
    requires e in Chain().peer
    ensures var f := Chain().peer[e];
            || (e == End(0, 0) && f == End(1, 0)) || (e == End(1, 0) && f == End(0, 0))
            || (e == End(1, 1) && f == End(2, 0)) || (e == End(2, 0) && f == End(1, 1))
  {
  }

  lemma ChainCabled()
    ensures Cabled(Chain())
  {
    var t := Chain();
    forall e | e in t.peer
      ensures e.sw < |t.ids| && e.port < t.portCount[e.sw]
      ensures t.peer[e] in t.peer && t.peer[t.peer[e]] == e && t.peer[e] != e
    {
      ChainEnds(e);
    }
  }

  /** Switch 4 announces itself and 9 follows it. */
  lemma FirstHalf(n: Network) returns (xs: seq<Step>)
    requires IsInitial(Chain(), n) && NetworkTrue(Chain(), n)
    ensures IsRun(Chain(), n, xs)
    ensures var r := Reached(Chain(), n, xs);
            r.bridges[0] == InitBridge(1, 1) && r.bridges[1] == InitBridge(4, 2) && r.bridges[2] == Follower()
  {
    var t, m := Chain(), Message(End(2, 0), Vector(4, 0, 4, PortId(1)));
    AnnouncedOnWire(t, 1, n.bridges[1], 1);
    assert m in Take(t, n, Hello(1)).sent;
    OneMoreStep(t, n, [], Hello(1));
    OneMoreStep(t, n, [Hello(1)], Deliver(m));
    NineFollows();
    xs := [Hello(1)] + [Deliver(m)];
    assert [] + [Hello(1)] == [Hello(1)];
  }

  /** Then 4 hears of switch 1 and passes it on, and 9 declares itself root. */
  lemma SecondHalf(n: Network, xs: seq<Step>) returns (ys: seq<Step>)
    requires NetworkTrue(Chain(), n) && IsRun(Chain(), n, xs)
    requires var r := Reached(Chain(), n, xs);
             r.bridges[0] == InitBridge(1, 1) && r.bridges[1] == InitBridge(4, 2) && r.bridges[2] == Follower()
    ensures IsRun(Chain(), n, ys) && Reached(Chain(), n, ys).bridges[2] == Pretender()
  {
    var t := Chain();
    var a, b := Message(End(1, 0), Vector(1, 0, 1, PortId(0))), Message(End(2, 0), Vector(1, 1, 4, PortId(1)));
    AnnouncedOnWire(t, 0, InitBridge(1, 1), 0);
    OneMoreStep(t, n, xs, Hello(0));
    ys := xs + [Hello(0)];
    assert a in Reached(t, n, ys).sent;
    MiddleLearns();
    AnnouncedOnWire(t, 1, Middle(), 1);
    OneMoreStep(t, n, ys, Deliver(a));
    ys := ys + [Deliver(a)];
    assert b in Reached(t, n, ys).sent;
    NinePretends();
    OneMoreStep(t, n, ys, Deliver(b));
    ys := ys + [Deliver(b)];
  }

  /** From switch 4 nothing is better than switch 1 at one hop. */
  lemma OneHopIsBest()
    ensures Unbeatable(Chain(), 1, 1, 1) && Witnessed(Chain(), 1, 1, 1)
  {
    var t := Chain();
    forall r: nat, c: nat | Witnessed(t, 1, r, c) ensures 1 < r || (1 == r && 1 <= c) {
      var i :| 0 <= i < |t.ids| && t.ids[i] == r && Walk(t, 1, i, c);
    }
    assert Walk(t, 0, 0, 0) && End(1, 0) in t.peer;
    assert Walk(t, 1, 0, 1);
    assert t.ids[0] == 1;
  }

  lemma PretenderHeardTheBest()
    ensures HeardTheBest(Chain(), 2, Pretender())
  {
    OneHopIsBest();
    forall p: nat | p < 2 && End(2, p) in Chain().peer ensures RemembersBest(Chain(), End(2, p), Pretender().ports[p].v) {
      ChainEnds(End(2, p));
    }
  }

  lemma PretenderStays(r: Network, ys: seq<Step>)
    requires NetworkTrue(Chain(), r) && r.bridges[2] == Pretender() && IsRun(Chain(), r, ys)
    ensures Reached(Chain(), r, ys).bridges[2] == Pretender()
  {
    PretenderHeardTheBest();
    FrozenForGood(Chain(), r, ys, 2);
  }

  lemma ChainInit(n: Network)
    requires IsInitial(Chain(), n)
    ensures NetworkTrue(Chain(), n)
  {
    ChainCabled();
    InitTrue(Chain(), n);
  }

  /** In the chain 1 - 4 - 9 some run from the start makes switch 9 declare itself root, although it is
      connected to 1, and no continuation whatsoever changes that. */
  lemma WrongRootForGood(n: Network) returns (xs: seq<Step>)
    requires IsInitial(Chain(), n)
    ensures NetworkTrue(Chain(), n) && IsRun(Chain(), n, xs)
    ensures var r := Reached(Chain(), n, xs);
            && r.bridges[2].root == 9 && r.bridges[2].cost == 0
            && forall ys :: IsRun(Chain(), r, ys) ==> Reached(Chain(), r, ys).bridges[2] == r.bridges[2]
  {
    ChainInit(n);
    xs := FirstHalf(n);
    xs := SecondHalf(n, xs);
    var r := Reached(Chain(), n, xs);
    forall ys | IsRun(Chain(), r, ys) ensures Reached(Chain(), r, ys).bridges[2] == r.bridges[2] {
      PretenderStays(r, ys);
    }
  }
}
