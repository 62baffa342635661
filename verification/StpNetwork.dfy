/** A network of spanning-tree switches on point-to-point links. Config messages may be lost,
    repeated, delayed and reordered: any message ever sent may be delivered at any time. */
module StpNetwork {
  import opened StpBridge

  datatype End = End(sw: nat, port: nat)

  /** The cabling: `peer` gives the other end of the link at an end, if there is a link. */
  datatype Topology = Topology(ids: seq<nat>, portCount: seq<nat>, peer: map<End, End>)

  ghost predicate Cabled(t: Topology) {
    && |t.ids| == |t.portCount|
    && (forall i, j :: 0 <= i < j < |t.ids| ==> t.ids[i] != t.ids[j])
    && (forall e :: e in t.peer ==> e.sw < |t.ids| && e.port < t.portCount[e.sw])
    && (forall e :: e in t.peer ==> t.peer[e] in t.peer && t.peer[t.peer[e]] == e && t.peer[e] != e)
  }

  /** A walk of exactly `n` links. */
  ghost predicate Walk(t: Topology, a: nat, b: nat, n: nat)
    decreases n
  {
    if n == 0 then a == b
    else exists p: nat :: End(a, p) in t.peer && Walk(t, t.peer[End(a, p)].sw, b, n - 1)
  }

  /** From switch `s` a walk of exactly `cost` links reaches a real switch whose id is `root`. */
  ghost predicate Witnessed(t: Topology, s: nat, root: nat, cost: nat) {
    exists r :: 0 <= r < |t.ids| && t.ids[r] == root && Walk(t, s, r, cost)
  }

  lemma OneMoreHop(t: Topology, s: nat, p: nat, root: nat, cost: nat)
    requires End(s, p) in t.peer && Witnessed(t, t.peer[End(s, p)].sw, root, cost)
    ensures Witnessed(t, s, root, cost + 1)
  {
    var r :| 0 <= r < |t.ids| && t.ids[r] == root && Walk(t, t.peer[End(s, p)].sw, r, cost);
    assert Walk(t, s, r, cost + 1);
  }

  datatype Message = Message(to: End, v: Vector)

  datatype Network = Network(bridges: seq<Bridge>, sent: set<Message>)

  /** The vector came over the link at `e`, and its sender could back it by a walk. */
  ghost predicate FromPeer(t: Topology, e: End, v: Vector) {
    && e in t.peer && t.peer[e].sw < |t.ids|
    && v.sw == t.ids[t.peer[e].sw] && v.port == PortId(t.peer[e].port)
    && Witnessed(t, t.peer[e].sw, v.root, v.cost)
  }

  /** A port vector is the switch's own or its peer's, and either way backed by a walk. */
  ghost predicate PortTrue(t: Topology, s: nat, b: Bridge, i: nat)
    requires i < |b.ports|
  {
    if IsDesignated(b, i) then Witnessed(t, s, b.ports[i].v.root, b.ports[i].v.cost)
    else FromPeer(t, End(s, i), b.ports[i].v)
  }

  ghost predicate BridgeTrue(t: Topology, s: nat, b: Bridge)
    requires s < |t.ids| == |t.portCount|
  {
    && WellFormed(b) && b.id == t.ids[s] && |b.ports| == t.portCount[s]
    && Witnessed(t, s, b.root, b.cost)
    && (forall i :: 0 <= i < |b.ports| ==> PortTrue(t, s, b, i))
  }

  /** Every (root, cost) a switch holds, a port stores or a message carries is backed by a walk. */
  ghost predicate NetworkTrue(t: Topology, n: Network) {
    && Cabled(t) && |n.bridges| == |t.ids|
    && (forall s :: 0 <= s < |n.bridges| ==> BridgeTrue(t, s, n.bridges[s]))
    && (forall m :: m in n.sent ==> FromPeer(t, m.to, m.v))
  }

  // ----- steps -----

  /** Messages put on the wire when switch `s` sends `out`; ports without a link send into the void. */
  ghost function OnWire(t: Topology, s: nat, out: seq<(nat, Vector)>): set<Message> {
    set j | 0 <= j < |out| && End(s, out[j].0) in t.peer :: Message(t.peer[End(s, out[j].0)], out[j].1)
  }

  datatype Step = Deliver(m: Message) | Hello(s: nat)

  ghost predicate Enabled(n: Network, x: Step) {
    match x
    case Deliver(m) => m in n.sent
    case Hello(s) => s < |n.bridges|
  }

  /** Delivery of a message, or `stp_send_config` at a hello timeout of any switch. */
  ghost function Take(t: Topology, n: Network, x: Step): Network
    requires NetworkTrue(t, n) && Enabled(n, x)
  {
    match x
    case Deliver(m) =>
      var b := n.bridges[m.to.sw];
      Network(n.bridges[m.to.sw := Handled(b, m.to.port, m.v)],
              n.sent + OnWire(t, m.to.sw, Replies(b, m.to.port, m.v)))
    case Hello(s) =>
      n.(sent := n.sent + OnWire(t, s, Announcements(n.bridges[s], |n.bridges[s].ports|)))
  }

  ghost predicate IsInitial(t: Topology, n: Network) {
    && |t.ids| == |t.portCount| == |n.bridges| && n.sent == {}
    && (forall s :: 0 <= s < |t.ids| ==> n.bridges[s] == InitBridge(t.ids[s], t.portCount[s]))
  }

  // ----- what every step keeps -----

  lemma ArrivesForeign(t: Topology, s: nat, b: Bridge, p: nat, v: Vector)
    requires Cabled(t) && s < |t.ids| && BridgeTrue(t, s, b) && p < |b.ports| && FromPeer(t, End(s, p), v)
    ensures Foreign(b, p, v)
  {
    var q := t.peer[End(s, p)];
    if v.sw == b.id { assert q.sw == s; }
  }

  lemma LearnedTrue(t: Topology, s: nat, b: Bridge, p: nat, v: Vector)
    requires Cabled(t) && s < |t.ids| && BridgeTrue(t, s, b) && p < |b.ports| && FromPeer(t, End(s, p), v)
    ensures BridgeTrue(t, s, Learned(b, p, v))
  {
    ArrivesForeign(t, s, b, p, v);
    var l := Learned(b, p, v);
    forall i | 0 <= i < |l.ports| ensures PortTrue(t, s, l, i) {
      assert PortTrue(t, s, b, i);
    }
  }

  lemma ElectedTrue(t: Topology, s: nat, b: Bridge)
    requires Cabled(t) && s < |t.ids| && BridgeTrue(t, s, b)
    ensures BridgeTrue(t, s, Elected(b))
  {
    PickIsLeast(b, |b.ports|);
    var r := Pick(b, |b.ports|);
    if r >= 0 {
      assert PortTrue(t, s, b, r);
      OneMoreHop(t, s, r, b.ports[r].v.root, b.ports[r].v.cost);
    } else {
      assert Walk(t, s, s, 0);
      assert Witnessed(t, s, t.ids[s], 0);
    }
    forall i | 0 <= i < |b.ports| ensures PortTrue(t, s, Elected(b), i) {
      assert PortTrue(t, s, b, i);
    }
  }

  lemma RefreshedTrue(t: Topology, s: nat, b: Bridge)
    requires Cabled(t) && s < |t.ids| && BridgeTrue(t, s, b)
    ensures BridgeTrue(t, s, Refreshed(b))
  {
    RefreshKeeps(b);
    forall i | 0 <= i < |b.ports| ensures PortTrue(t, s, Refreshed(b), i) {
      assert PortTrue(t, s, b, i);
    }
  }

  lemma HandledTrue(t: Topology, s: nat, b: Bridge, p: nat, v: Vector)
    requires Cabled(t) && s < |t.ids| && BridgeTrue(t, s, b) && p < |b.ports| && FromPeer(t, End(s, p), v)
    ensures BridgeTrue(t, s, Handled(b, p, v))
  {
    LearnedTrue(t, s, b, p, v);
    ElectedTrue(t, s, Learned(b, p, v));
    RefreshedTrue(t, s, Elected(Learned(b, p, v)));
  }

  /** Whatever a switch announces through one of its ports reaches the peer as the truth. */
  lemma AnnouncementTrue(t: Topology, s: nat, b: Bridge, i: nat)
    requires Cabled(t) && s < |t.ids| && BridgeTrue(t, s, b) && i < |b.ports| && End(s, i) in t.peer
    ensures FromPeer(t, t.peer[End(s, i)], Announcement(b, i))
  {
  }

  /** All messages of a batch announce the sending switch's belief through a port of its own. */
  ghost predicate Announces(b: Bridge, out: seq<(nat, Vector)>) {
    forall j :: 0 <= j < |out| ==> out[j].0 < |b.ports| && out[j].1 == Announcement(b, out[j].0)
  }

  lemma AnnouncementsAnnounce(b: Bridge)
    ensures Announces(b, Announcements(b, |b.ports|))
  {
    var out := Announcements(b, |b.ports|);
    forall j | 0 <= j < |out| ensures out[j].0 < |b.ports| && out[j].1 == Announcement(b, out[j].0) {
      assert (out[j].0, out[j].1) in out;
      AnnouncementsMeaning(b, |b.ports|, out[j].0, out[j].1);
    }
  }

  lemma WireTrue(t: Topology, s: nat, b: Bridge, out: seq<(nat, Vector)>)
    requires Cabled(t) && s < |t.ids| && BridgeTrue(t, s, b) && Announces(b, out)
    ensures forall m :: m in OnWire(t, s, out) ==> FromPeer(t, m.to, m.v)
  {
    forall m | m in OnWire(t, s, out) ensures FromPeer(t, m.to, m.v) {
      var j :| 0 <= j < |out| && End(s, out[j].0) in t.peer && m == Message(t.peer[End(s, out[j].0)], out[j].1);
      AnnouncementTrue(t, s, b, out[j].0);
    }
  }

  lemma StepTrue(t: Topology, n: Network, x: Step)
    requires NetworkTrue(t, n) && Enabled(n, x)
    ensures NetworkTrue(t, Take(t, n, x))
  {
    match x
    case Hello(s) =>
      AnnouncementsAnnounce(n.bridges[s]);
      WireTrue(t, s, n.bridges[s], Announcements(n.bridges[s], |n.bridges[s].ports|));
    case Deliver(m) =>
      var s, p := m.to.sw, m.to.port;
      assert FromPeer(t, m.to, m.v);
      var b := n.bridges[s];
      HandledTrue(t, s, b, p, m.v);
      var b' := Handled(b, p, m.v);
      AnnouncementsAnnounce(b');
      assert Announces(b', Replies(b, p, m.v));
      WireTrue(t, s, b', Replies(b, p, m.v));
  }

  // ----- what every step sends -----

  /** The message tells the peer of port `i` what switch `s` believes. */
  ghost predicate Tells(t: Topology, s: nat, b: Bridge, i: nat, x: Message) {
    End(s, i) in t.peer && x == Message(t.peer[End(s, i)], Vector(b.root, b.cost, b.id, PortId(i)))
  }

  lemma OnWireMeaning(t: Topology, s: nat, b: Bridge, out: seq<(nat, Vector)>, x: Message)
    requires WellFormed(b) && Announces(b, out)
    ensures x in OnWire(t, s, out) <==>
            exists i :: 0 <= i < |b.ports| && (i, Announcement(b, i)) in out && Tells(t, s, b, i, x)
  {
    if x in OnWire(t, s, out) {
      var j :| 0 <= j < |out| && End(s, out[j].0) in t.peer && x == Message(t.peer[End(s, out[j].0)], out[j].1);
      assert out[j] == (out[j].0, Announcement(b, out[j].0)) && Tells(t, s, b, out[j].0, x);
    }
    if i :| 0 <= i < |b.ports| && (i, Announcement(b, i)) in out && Tells(t, s, b, i, x) {
      var j :| 0 <= j < |out| && out[j] == (i, Announcement(b, i));
    }
  }

  /** A switch without a root port that does not think it is root says nothing; any other tells its
      belief through its designated ports. */
  lemma AnnouncementsOnWire(t: Topology, s: nat, b: Bridge, x: Message)
    requires WellFormed(b)
    ensures x in OnWire(t, s, Announcements(b, |b.ports|)) <==>
            && (b.root == b.id || b.rootPort >= 0)
            && exists i :: 0 <= i < |b.ports| && IsDesignated(b, i) && Tells(t, s, b, i, x)
  {
    AnnouncementsAnnounce(b);
    OnWireMeaning(t, s, b, Announcements(b, |b.ports|), x);
    forall i: nat | i < |b.ports|
      ensures (i, Announcement(b, i)) in Announcements(b, |b.ports|) <==> IsDesignated(b, i) && MaySend(b)
    {
      AnnouncementsMeaning(b, |b.ports|, i, Announcement(b, i));
    }
  }

  lemma HelloSends(t: Topology, n: Network, s: nat, x: Message)
    requires NetworkTrue(t, n) && s < |n.bridges|
    ensures var b := n.bridges[s];
            x in Take(t, n, Hello(s)).sent <==>
            || x in n.sent
            || ((b.root == b.id || b.rootPort >= 0) &&
                exists i :: 0 <= i < |b.ports| && IsDesignated(b, i) && Tells(t, s, b, i, x))
  {
    assert BridgeTrue(t, s, n.bridges[s]);
    AnnouncementsOnWire(t, s, n.bridges[s], x);
  }

  /** The port through which a config that is not PRIOR is answered: the one it came in on. */
  lemma ReplyOnWire(t: Topology, s: nat, b: Bridge, p: nat, x: Message)
    requires WellFormed(b) && p < |b.ports|
    ensures x in OnWire(t, s, [(p, Announcement(b, p))]) <==> Tells(t, s, b, p, x)
  {
    var out := [(p, Announcement(b, p))];
    OnWireMeaning(t, s, b, out, x);
    assert out[0] in out;
  }

  /** Delivery of a config adds exactly these messages: if it is PRIOR to what its port holds, the new
      belief through every designated port, and otherwise the unchanged belief through that port alone;
      nothing if the switch neither thinks it is root nor has a root port. */
  lemma DeliverSends(t: Topology, n: Network, m: Message, x: Message)
    requires NetworkTrue(t, n) && m in n.sent
    ensures FromPeer(t, m.to, m.v) && m.to.sw < |n.bridges| && m.to.port < |n.bridges[m.to.sw].ports|
    ensures var s, p := m.to.sw, m.to.port;
            var b, b' := n.bridges[s], Take(t, n, Deliver(m)).bridges[s];
            x in Take(t, n, Deliver(m)).sent <==>
            || x in n.sent
            || ((b'.root == b'.id || b'.rootPort >= 0) &&
                if Prior(m.v, b.ports[p].v) then
                  exists i :: 0 <= i < |b'.ports| && IsDesignated(b', i) && Tells(t, s, b', i, x)
                else Tells(t, s, b', p, x))
  {
    var s, p := m.to.sw, m.to.port;
    assert FromPeer(t, m.to, m.v) && BridgeTrue(t, s, n.bridges[s]);
    HandledTrue(t, s, n.bridges[s], p, m.v);
    var b' := Handled(n.bridges[s], p, m.v);
    AnnouncementsOnWire(t, s, b', x);
    ReplyOnWire(t, s, b', p, x);
  }

  /** A config that is not better than what its port remembers is answered through that port with what
      the switch believes. */
  lemma WorseConfigIsAnswered(t: Topology, n: Network, m: Message)
    requires NetworkTrue(t, n) && m in n.sent
    ensures FromPeer(t, m.to, m.v) && m.to.sw < |n.bridges| && m.to.port < |n.bridges[m.to.sw].ports|
    ensures var b := n.bridges[m.to.sw];
            !Prior(m.v, b.ports[m.to.port].v) && (b.root == b.id || b.rootPort >= 0) ==>
            Message(t.peer[m.to], Vector(b.root, b.cost, b.id, PortId(m.to.port))) in Take(t, n, Deliver(m)).sent
  {
    assert FromPeer(t, m.to, m.v) && BridgeTrue(t, m.to.sw, n.bridges[m.to.sw]);
    var b := n.bridges[m.to.sw];
    DeliverSends(t, n, m, Message(t.peer[m.to], Vector(b.root, b.cost, b.id, PortId(m.to.port))));
  }

  lemma InitTrue(t: Topology, n: Network)
    requires Cabled(t) && IsInitial(t, n)
    ensures NetworkTrue(t, n)
  {
    forall s | 0 <= s < |t.ids| ensures BridgeTrue(t, s, n.bridges[s]) {
      assert Walk(t, s, s, 0);
      assert Witnessed(t, s, t.ids[s], 0);
    }
  }

  // ----- runs -----

  ghost predicate IsRun(t: Topology, n: Network, xs: seq<Step>)
    requires NetworkTrue(t, n)
    decreases |xs|
  {
    xs == [] ||
    (Enabled(n, xs[0]) && assert NetworkTrue(t, Take(t, n, xs[0])) by { StepTrue(t, n, xs[0]); }
     IsRun(t, Take(t, n, xs[0]), xs[1..]))
  }

  ghost function Reached(t: Topology, n: Network, xs: seq<Step>): (r: Network)
    requires NetworkTrue(t, n) && IsRun(t, n, xs)
    ensures NetworkTrue(t, r)
    decreases |xs|
  {
    if xs == [] then n
    else
      StepTrue(t, n, xs[0]);
      Reached(t, Take(t, n, xs[0]), xs[1..])
  }

  ghost predicate CanReach(t: Topology, a: nat, b: nat) {
    exists n: nat :: Walk(t, a, b, n)
  }

  /** No switch in reach of `s` has an id below `least`. */
  ghost predicate LeastInReach(t: Topology, s: nat, least: nat) {
    forall r :: 0 <= r < |t.ids| && CanReach(t, s, r) ==> least <= t.ids[r]
  }

  /** `d` is at most the length of every walk from `a` to `b`. */
  ghost predicate NoShorterWalk(t: Topology, a: nat, b: nat, d: nat) {
    forall n: nat :: Walk(t, a, b, n) ==> d <= n
  }

  /** The belief of switch `s` names a real switch in reach, so none below the least id in reach, and
      no cost below the true distance from it. */
  ghost predicate Safe(t: Topology, s: nat, root: nat, cost: nat) {
    && (exists r :: 0 <= r < |t.ids| && t.ids[r] == root && CanReach(t, s, r))
    && (forall least: nat :: LeastInReach(t, s, least) ==> least <= root)
    && (forall r: nat, d: nat :: r < |t.ids| && t.ids[r] == root && NoShorterWalk(t, s, r, d) ==> d <= cost)
  }

  lemma WitnessedIsSafe(t: Topology, s: nat, root: nat, cost: nat)
    requires Cabled(t) && Witnessed(t, s, root, cost)
    ensures Safe(t, s, root, cost)
  {
    var r :| 0 <= r < |t.ids| && t.ids[r] == root && Walk(t, s, r, cost);
    assert CanReach(t, s, r);
    forall q: nat, d: nat | q < |t.ids| && t.ids[q] == root && NoShorterWalk(t, s, q, d) ensures d <= cost {
      assert q == r;
    }
  }

  /** From any network in which all beliefs are backed by walks, every run leads to safe beliefs. */
  lemma EveryRunIsSafe(t: Topology, n: Network, xs: seq<Step>, s: nat)
    requires NetworkTrue(t, n) && IsRun(t, n, xs) && s < |t.ids|
    ensures var b := Reached(t, n, xs).bridges[s];
            Witnessed(t, s, b.root, b.cost) && Safe(t, s, b.root, b.cost)
  {
    var b := Reached(t, n, xs).bridges[s];
    assert BridgeTrue(t, s, b);
    WitnessedIsSafe(t, s, b.root, b.cost);
  }

  // ----- belief and root port, in every run -----

  /** Every switch that does not have exactly one port is coherent. */
  ghost predicate AllCoherent(t: Topology, n: Network)
    requires |n.bridges| == |t.portCount|
  {
    forall s :: 0 <= s < |n.bridges| && t.portCount[s] != 1 ==> Coherent(n.bridges[s])
  }

  lemma StepCoherent(t: Topology, n: Network, x: Step)
    requires NetworkTrue(t, n) && Enabled(n, x) && AllCoherent(t, n)
    ensures AllCoherent(t, Take(t, n, x))
  {
    if x.Deliver? && t.portCount[x.m.to.sw] != 1 {
      var m := x.m;
      assert FromPeer(t, m.to, m.v);
      var b := n.bridges[m.to.sw];
      assert BridgeTrue(t, m.to.sw, b);
      ArrivesForeign(t, m.to.sw, b, m.to.port, m.v);
      HandledCoherent(b, m.to.port, m.v);
    }
  }

  /** In every run of every network, each switch with at least two ports keeps its root port
      non-designated and its belief equal to (own id, 0) or to what the root port says plus one hop. */
  lemma {:induction false} EveryRunCoherent(t: Topology, n: Network, xs: seq<Step>)
    requires NetworkTrue(t, n) && AllCoherent(t, n) && IsRun(t, n, xs)
    ensures AllCoherent(t, Reached(t, n, xs))
    decreases |xs|
  {
    if xs != [] {
      StepTrue(t, n, xs[0]);
      StepCoherent(t, n, xs[0]);
      EveryRunCoherent(t, Take(t, n, xs[0]), xs[1..]);
    }
  }

  lemma InitAllCoherent(t: Topology, n: Network)
    requires IsInitial(t, n)
    ensures AllCoherent(t, n)
  {
    forall s | 0 <= s < |t.ids| ensures Coherent(n.bridges[s]) {
      InitCoherent(t.ids[s], t.portCount[s]);
    }
  }
}
