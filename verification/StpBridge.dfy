/** One spanning-tree switch: port vectors, their order, and the handling of a config message. */
module StpBridge {

  /** What a config message says, and what a port remembers of the best one. */
  datatype Vector = Vector(root: nat, cost: nat, sw: nat, port: nat)

  datatype Port = Port(portId: nat, pathCost: nat, v: Vector)

  /** `rootPort` is an index into `ports`, or -1 for NULL. */
  datatype Bridge = Bridge(id: nat, root: nat, cost: nat, rootPort: int, ports: seq<Port>)

  datatype Role = RootRole | DesignatedRole | AlternateRole

  /** The PRIOR macro. */
  predicate Prior(a: Vector, b: Vector) {
    if a.root < b.root then true else if a.root > b.root then false else
    if a.cost < b.cost then true else if a.cost > b.cost then false else
    if a.sw < b.sw then true else if a.sw > b.sw then false else
    a.port < b.port
  }

  lemma PriorIsStrictTotalOrder(a: Vector, b: Vector, c: Vector)
    ensures !Prior(a, a)
    ensures Prior(a, b) && Prior(b, c) ==> Prior(a, c)
    ensures a == b || (Prior(a, b) <==> !Prior(b, a))
  {
    if a != b { assert a.root != b.root || a.cost != b.cost || a.sw != b.sw || a.port != b.port; }
  }

  /** Root, cost, switch and port, in this order. */
  function Field(a: Vector, i: nat): nat {
    if i == 0 then a.root else if i == 1 then a.cost else if i == 2 then a.sw else a.port
  }

  /** The first field in which two vectors differ decides. */
  lemma PriorIsLexicographic(a: Vector, b: Vector)
    ensures Prior(a, b) <==>
            exists k: nat :: k < 4 && Field(a, k) < Field(b, k) && forall i: nat :: i < k ==> Field(a, i) == Field(b, i)
  {
    if Prior(a, b) {
      var k := if a.root != b.root then 0 else if a.cost != b.cost then 1 else if a.sw != b.sw then 2 else 3;
      assert Field(a, k) < Field(b, k);
    }
    if k: nat :| k < 4 && Field(a, k) < Field(b, k) && forall i: nat :: i < k ==> Field(a, i) == Field(b, i) {
      assert k > 0 ==> Field(a, 0) == Field(b, 0);
      assert k > 1 ==> Field(a, 1) == Field(b, 1);
      assert k > 2 ==> Field(a, 2) == Field(b, 2);
    }
  }

  const PORT_PRIORITY := 128

  /** `(STP_PORT_PRIORITY << 8) | (i + 1)` for the at most 32 ports of a switch. */
  function PortId(i: nat): nat {
    PORT_PRIORITY * 256 + i + 1
  }

  /** The priority is in the high byte, the port's number, counted from one, in the low byte. */
  lemma PortIdBytes(i: nat)
    requires i < 255
    ensures PortId(i) / 256 == 128 && PortId(i) % 256 == i + 1
  {
  }

  /** The shape `stp_init` gives a switch and nothing changes. */
  ghost predicate WellFormed(b: Bridge) {
    && -1 <= b.rootPort < |b.ports|
    && (forall i :: 0 <= i < |b.ports| ==> b.ports[i].portId == PortId(i) && b.ports[i].pathCost == 1)
  }

  ghost function InitPort(id: nat, i: nat): Port {
    Port(PortId(i), 1, Vector(id, 0, id, PortId(i)))
  }

  /** `stp_init`. */
  ghost function InitBridge(id: nat, n: nat): (b: Bridge)
    ensures WellFormed(b)
  {
    Bridge(id, id, 0, -1, seq(n, i requires 0 <= i < n => InitPort(id, i)))
  }

  predicate IsDesignated(b: Bridge, i: nat)
    requires i < |b.ports|
  {
    b.ports[i].v.sw == b.id && b.ports[i].v.port == b.ports[i].portId
  }

  /** `stp_port_state`. */
  function PortRole(b: Bridge, i: nat): Role
    requires i < |b.ports| && b.rootPort < |b.ports|
  {
    if b.rootPort >= 0 && b.ports[i].portId == b.ports[b.rootPort].portId then RootRole
    else if b.ports[i].v.sw == b.id && b.ports[i].v.port == b.ports[i].portId then DesignatedRole
    else AlternateRole
  }

  /** What the switch announces; a switch that is not root and has no root port stays silent. */
  function Announcement(b: Bridge, i: nat): Vector
    requires i < |b.ports|
  {
    Vector(b.root, b.cost, b.id, b.ports[i].portId)
  }

  predicate MaySend(b: Bridge) {
    b.root == b.id || b.rootPort >= 0
  }

  // ----- specification of stp_handle_config_packet -----

  ghost function Learned(b: Bridge, p: nat, c: Vector): Bridge
    requires p < |b.ports|
  {
    b.(ports := b.ports[p := b.ports[p].(v := c)])
  }

  /** The ports among which the new root port is sought: neither designated nor the current root port. */
  predicate Candidate(b: Bridge, i: nat)
    requires i < |b.ports| && b.rootPort < |b.ports|
  {
    !IsDesignated(b, i) && PortRole(b, i) == AlternateRole
  }

  /** Best of the first `k` ports, the earliest among equals; -1 if there is no candidate. */
  ghost function Pick(b: Bridge, k: nat): (r: int)
    requires k <= |b.ports| && b.rootPort < |b.ports|
    ensures -1 <= r < k
  {
    if k == 0 then -1
    else
      var r := Pick(b, k - 1);
      if Candidate(b, k - 1) && (r == -1 || Prior(b.ports[k - 1].v, b.ports[r].v)) then k - 1 else r
  }

  /** The selection loops find a least candidate of the PRIOR order, if there is one at all. */
  lemma {:induction false} PickIsLeast(b: Bridge, k: nat)
    requires k <= |b.ports| && b.rootPort < |b.ports|
    ensures Pick(b, k) == -1 <==> forall i :: 0 <= i < k ==> !Candidate(b, i)
    ensures Pick(b, k) >= 0 ==> Candidate(b, Pick(b, k))
    ensures Pick(b, k) >= 0 ==> forall i :: 0 <= i < k && Candidate(b, i) ==> !Prior(b.ports[i].v, b.ports[Pick(b, k)].v)
    ensures forall i :: 0 <= i < Pick(b, k) && Candidate(b, i) ==> Prior(b.ports[Pick(b, k)].v, b.ports[i].v)
  {
    if k > 0 {
      PickIsLeast(b, k - 1);
      var r, r' := Pick(b, k - 1), Pick(b, k);
      if r' != r && r >= 0 {
        forall i | 0 <= i < k && Candidate(b, i)
          ensures !Prior(b.ports[i].v, b.ports[r'].v) && (i < r' ==> Prior(b.ports[r'].v, b.ports[i].v))
        {
          PriorIsStrictTotalOrder(b.ports[i].v, b.ports[r'].v, b.ports[r].v);
          PriorIsStrictTotalOrder(b.ports[r'].v, b.ports[r].v, b.ports[i].v);
          PriorIsStrictTotalOrder(b.ports[r].v, b.ports[i].v, b.ports[i].v);
        }
      }
    }
  }

  /** The belief and root port after the election. With one port the reset to "I am root" is skipped. */
  ghost function Elected(b: Bridge): Bridge
    requires b.rootPort < |b.ports|
  {
    var r := Pick(b, |b.ports|);
    if r >= 0 then
      b.(root := b.ports[r].v.root, cost := b.ports[r].v.cost + b.ports[r].pathCost, rootPort := r)
    else if |b.ports| > 1 then b.(root := b.id, cost := 0)
    else b
  }

  ghost function RefreshedPort(b: Bridge, i: nat): Port
    requires i < |b.ports| && b.rootPort < |b.ports|
  {
    var p := b.ports[i];
    if IsDesignated(b, i) then p.(v := p.v.(root := b.root, cost := b.cost))
    else if PortRole(b, i) == AlternateRole && b.cost < p.v.cost then p.(v := Announcement(b, i))
    else p
  }

  ghost function Refreshed(b: Bridge): Bridge
    requires b.rootPort < |b.ports|
  {
    b.(ports := seq(|b.ports|, i requires 0 <= i < |b.ports| => RefreshedPort(b, i)))
  }

  ghost function Handled(b: Bridge, p: nat, c: Vector): Bridge
    requires p < |b.ports| && b.rootPort < |b.ports|
  {
    if Prior(c, b.ports[p].v) then Refreshed(Elected(Learned(b, p, c))) else b
  }

  /** Config messages leaving through the first `k` designated ports. */
  ghost function Announcements(b: Bridge, k: nat): seq<(nat, Vector)>
    requires k <= |b.ports|
  {
    if k == 0 then []
    else if IsDesignated(b, k - 1) && MaySend(b) then Announcements(b, k - 1) + [(k - 1, Announcement(b, k - 1))]
    else Announcements(b, k - 1)
  }

  /** Exactly the designated ports announce, each the switch's belief under its own number, and none
      of them on a silent switch. */
  lemma {:induction false} AnnouncementsMeaning(b: Bridge, k: nat, i: nat, v: Vector)
    requires k <= |b.ports|
    ensures (i, v) in Announcements(b, k) <==>
            i < k && IsDesignated(b, i) && MaySend(b) && v == Announcement(b, i)
  {
    if k > 0 { AnnouncementsMeaning(b, k - 1, i, v); }
  }

  /** What goes out while a config message is handled: everything designated, or a reply on that port. */
  ghost function Replies(b: Bridge, p: nat, c: Vector): seq<(nat, Vector)>
    requires p < |b.ports| && b.rootPort < |b.ports|
  {
    var b' := Handled(b, p, c);
    if Prior(c, b.ports[p].v) then Announcements(b', |b'.ports|)
    else if MaySend(b) then [(p, Announcement(b, p))]
    else []
  }

  // ----- one-switch invariant -----

  ghost predicate BelievesItIsRoot(b: Bridge) {
    b.root == b.id && b.cost == 0
  }

  ghost predicate FollowsRootPort(b: Bridge)
    requires WellFormed(b)
  {
    b.rootPort >= 0 && b.root == b.ports[b.rootPort].v.root && b.cost == b.ports[b.rootPort].v.cost + 1
  }

  /** Designated ports hold what the switch announces, and the remaining ports, root port apart, hold
      vectors at least as cheap as its own. */
  ghost predicate PortsSettled(b: Bridge) {
    && (forall i :: 0 <= i < |b.ports| && IsDesignated(b, i) ==> b.ports[i].v == Announcement(b, i))
    && (forall i :: 0 <= i < |b.ports| && !IsDesignated(b, i) && i != b.rootPort ==> b.ports[i].v.cost <= b.cost)
  }

  /** The root port, if any, is not designated, and the switch believes either that it is root
      itself or what its root port says plus one hop. */
  ghost predicate Agrees(b: Bridge) {
    && WellFormed(b)
    && (b.rootPort >= 0 ==> !IsDesignated(b, b.rootPort))
    && (BelievesItIsRoot(b) || FollowsRootPort(b))
  }

  /** Belief, root port and the other ports fit together. */
  ghost predicate Coherent(b: Bridge) {
    Agrees(b) && PortsSettled(b)
  }

  lemma InitCoherent(id: nat, n: nat)
    ensures Coherent(InitBridge(id, n))
  {
  }

  /** Refreshing settles all ports and leaves the root port alone. */
  lemma RefreshKeeps(b: Bridge)
    requires WellFormed(b)
    ensures WellFormed(Refreshed(b)) && PortsSettled(Refreshed(b))
    ensures b.rootPort >= 0 && !IsDesignated(b, b.rootPort) ==> Refreshed(b).ports[b.rootPort] == b.ports[b.rootPort]
  {
  }

  /** Exactly the designated ports and the ports other than the root port that are dearer than the switch
      end up designated, all announcing its belief; every other port is left as it was. */
  lemma RefreshDecides(b: Bridge, i: nat)
    requires WellFormed(b) && i < |b.ports|
    ensures var r := Refreshed(b);
            && (IsDesignated(r, i) <==> IsDesignated(b, i) || (i != b.rootPort && b.cost < b.ports[i].v.cost))
            && r.ports[i] == if IsDesignated(r, i) then Port(PortId(i), 1, Vector(b.root, b.cost, b.id, PortId(i))) else b.ports[i]
  {
    assert Refreshed(b).ports[i] == RefreshedPort(b, i);
    assert b.rootPort >= 0 ==> b.ports[b.rootPort].portId == PortId(b.rootPort);
  }

  /** A message never names the receiving port itself as its sender. */
  ghost predicate Foreign(b: Bridge, p: nat, c: Vector)
    requires p < |b.ports|
  {
    c.sw != b.id || c.port != b.ports[p].portId
  }

  /** The one case that leaves a stale belief: a one-port switch whose root port learns something
      better about the root or the cost. */
  ghost predicate Stale(b: Bridge, p: nat, c: Vector)
    requires p < |b.ports|
  {
    && |b.ports| == 1 && b.rootPort == p && Prior(c, b.ports[p].v)
    && !BelievesItIsRoot(b)
    && !(c.root == b.ports[p].v.root && c.cost == b.ports[p].v.cost)
  }

  lemma LearnedCoherent(b: Bridge, p: nat, c: Vector)
    requires Coherent(b) && p < |b.ports| && Foreign(b, p, c)
    ensures WellFormed(Learned(b, p, c))
    ensures !IsDesignated(Learned(b, p, c), p)
    ensures b.rootPort >= 0 ==> !IsDesignated(Learned(b, p, c), b.rootPort)
    ensures p != b.rootPort ==> Candidate(Learned(b, p, c), p)
  {
  }

  lemma ElectedCoherent(b: Bridge, p: nat)
    requires WellFormed(b) && p < |b.ports| && (b.rootPort >= 0 ==> !IsDesignated(b, b.rootPort))
    requires p != b.rootPort ==> Candidate(b, p)
    ensures |b.ports| > 1 || b.rootPort != p ==> Agrees(Elected(b))
    ensures |b.ports| == 1 && b.rootPort == p ==> Elected(b) == b
  {
    PickIsLeast(b, |b.ports|);
  }

  /** Handling a config message keeps belief and root port in agreement, except in the stale case. */
  lemma HandledCoherent(b: Bridge, p: nat, c: Vector)
    requires Coherent(b) && p < |b.ports| && Foreign(b, p, c)
    ensures Coherent(Handled(b, p, c)) <==> !Stale(b, p, c)
  {
    if Prior(c, b.ports[p].v) {
      var l := Learned(b, p, c);
      LearnedCoherent(b, p, c);
      ElectedCoherent(l, p);
      RefreshKeeps(Elected(l));
    }
  }

  /** A switch with one port that hears of a better root keeps announcing the old one. */
  lemma OnePortSwitchStaysBehind()
    ensures var b := Bridge(9, 5, 1, 0, [Port(PortId(0), 1, Vector(5, 0, 5, PortId(0)))]);
            var c := Vector(3, 1, 5, PortId(0));
            Coherent(b) && Foreign(b, 0, c) && Handled(b, 0, c).root == 5 && Handled(b, 0, c).ports[0].v.root == 3
  {
    var b := Bridge(9, 5, 1, 0, [Port(PortId(0), 1, Vector(5, 0, 5, PortId(0)))]);
    var c := Vector(3, 1, 5, PortId(0));
    LearnedCoherent(b, 0, c);
    ElectedCoherent(Learned(b, 0, c), 0);
  }

  /** No port that the switch does not serve itself has a better vector than port `r`. */
  ghost predicate BestOfAll(b: Bridge, r: nat)
    requires r < |b.ports|
  {
    forall i :: 0 <= i < |b.ports| && !IsDesignated(b, i) ==> !Prior(b.ports[i].v, b.ports[r].v)
  }

  /** What an election should bring about: a switch that hears from others follows the best of them,
      and a switch that hears from nobody is root. */
  ghost predicate Sensible(b: Bridge, e: Bridge)
    requires WellFormed(e) && |b.ports| == |e.ports|
  {
    if exists i :: 0 <= i < |b.ports| && !IsDesignated(b, i) then
      FollowsRootPort(e) && !IsDesignated(b, e.rootPort) && BestOfAll(b, e.rootPort)
    else BelievesItIsRoot(e)
  }

  /** With more than one port the election is sensible exactly when there is no root port yet, or some
      other port not served by the switch is as good: the current root port itself is passed over. */
  lemma ElectionIsBest(b: Bridge)
    requires WellFormed(b) && (b.rootPort >= 0 ==> !IsDesignated(b, b.rootPort)) && |b.ports| > 1
    ensures WellFormed(Elected(b))
    ensures Sensible(b, Elected(b)) <==>
            b.rootPort < 0 ||
            exists i :: 0 <= i < |b.ports| && Candidate(b, i) && !Prior(b.ports[b.rootPort].v, b.ports[i].v)
  {
    PickIsLeast(b, |b.ports|);
    var r := Pick(b, |b.ports|);
    forall i | 0 <= i < |b.ports| && !IsDesignated(b, i) && i != b.rootPort ensures Candidate(b, i) {
    }
    if r >= 0 && b.rootPort >= 0 {
      forall i | 0 <= i < |b.ports| && Candidate(b, i) && !Prior(b.ports[b.rootPort].v, b.ports[i].v)
        ensures !Prior(b.ports[b.rootPort].v, b.ports[r].v)
      {
        PriorIsStrictTotalOrder(b.ports[b.rootPort].v, b.ports[r].v, b.ports[i].v);
        PriorIsStrictTotalOrder(b.ports[i].v, b.ports[r].v, b.ports[r].v);
      }
    }
  }

  /** In the chain 1 - 4 - 9 the last switch follows its only neighbour; told of the better root by
      that neighbour, it declares itself root. */
  lemma GoodNewsMakesSwitchRoot()
    ensures var b := Bridge(9, 4, 1, 0, [Port(PortId(0), 1, Vector(4, 0, 4, PortId(0))),
                                        Port(PortId(1), 1, Vector(4, 1, 9, PortId(1)))]);
            var c := Vector(1, 1, 4, PortId(0));
            && Coherent(b) && Foreign(b, 0, c) && Prior(c, b.ports[0].v)
            && Handled(b, 0, c).root == 9 && Handled(b, 0, c).cost == 0 && Handled(b, 0, c).ports[0].v.root == 1
  {
    var b := Bridge(9, 4, 1, 0, [Port(PortId(0), 1, Vector(4, 0, 4, PortId(0))),
                                Port(PortId(1), 1, Vector(4, 1, 9, PortId(1)))]);
    var c := Vector(1, 1, 4, PortId(0));
    var l := Learned(b, 0, c);
    LearnedCoherent(b, 0, c);
    assert !Candidate(l, 0) && !Candidate(l, 1);
    assert Pick(l, 1) == -1 && Pick(l, 2) == -1;
    RefreshKeeps(Elected(l));
  }

  /** A switch two hops from the root hears, on another port, of a way that is one hop longer, and
      moves to it: its cost goes up although the link to its old root port is as good as before. */
  lemma AbandonsBetterRootPort()
    ensures var b := Bridge(9, 1, 2, 0, [Port(PortId(0), 1, Vector(1, 1, 4, PortId(0))),
                                        Port(PortId(1), 1, Vector(1, 2, 9, PortId(1)))]);
            var c := Vector(1, 2, 3, PortId(0));
            && Coherent(b) && Foreign(b, 1, c)
            && Handled(b, 1, c).rootPort == 1 && Handled(b, 1, c).cost == 3
            && Prior(b.ports[0].v, c)
  {
    var b := Bridge(9, 1, 2, 0, [Port(PortId(0), 1, Vector(1, 1, 4, PortId(0))),
                                Port(PortId(1), 1, Vector(1, 2, 9, PortId(1)))]);
    var c := Vector(1, 2, 3, PortId(0));
    var l := Learned(b, 1, c);
    LearnedCoherent(b, 1, c);
    assert !Candidate(l, 0) && Candidate(l, 1);
    assert Pick(l, 1) == -1 && Pick(l, 2) == 1;
  }

  // ----- the switch as the program keeps it -----

  class Switch {
    const switchId: nat
    var designatedRoot: nat
    var rootPathCost: nat
    var rootPort: int
    var ports: seq<Port>
    var helloActive: bool

    function State(): Bridge
      reads this
    {
      Bridge(switchId, designatedRoot, rootPathCost, rootPort, ports)
    }

    constructor (id: nat, n: nat)
      ensures State() == InitBridge(id, n) && helloActive
    {
      switchId := id;
      designatedRoot, rootPathCost, rootPort := id, 0, -1;
      ports := seq(n, i requires 0 <= i < n => Port(PortId(i), 1, Vector(id, 0, id, PortId(i))));
      helloActive := true;
    }

    /** The two selection loops. */
    method SelectRootPort() returns (r: int)
      requires WellFormed(State())
      ensures r == Pick(State(), |ports|)
    {
      var b, n := State(), |ports|;
      var notDe := seq(n, i requires 0 <= i < n => !IsDesignated(b, i));
      r := -1;
      var i := 0;
      while i != n
        invariant 0 <= i <= n && r == -1 == Pick(b, i)
      {
        if notDe[i] && PortRole(b, i) == AlternateRole {
          r := i;
          break;
        }
        i := i + 1;
      }
      ghost var first := r;
      if r == -1 {
        return;
      }
      assert Pick(b, first + 1) == first;
      var j := 1;
      while j < n
        invariant 1 <= j && (n > 0 ==> j <= n) && 0 <= r < n
        invariant r == if j <= first then first else Pick(b, j)
      {
        if j <= first {
          NoEarlierCandidate(b, j, first);
          PriorIsStrictTotalOrder(b.ports[j].v, b.ports[first].v, b.ports[first].v);
        }
        if notDe[j] && PortRole(b, j) == AlternateRole && Prior(ports[j].v, ports[r].v) {
          r := j;
        }
        j := j + 1;
      }
    }

    /** The loop that brings designated ports up to date and takes over ports the switch can serve better. */
    method RefreshPorts()
      requires WellFormed(State())
      modifies this`ports
      ensures State() == Refreshed(old(State()))
    {
      ghost var b := State();
      RefreshKeeps(b);
      for i := 0 to |ports|
        invariant |ports| == |b.ports|
        invariant forall j :: 0 <= j < |ports| ==> ports[j] == if j < i then RefreshedPort(b, j) else b.ports[j]
      {
        var v := State();
        assert v.ports[i] == b.ports[i];
        assert b.rootPort >= 0 ==> v.ports[b.rootPort].portId == PortId(b.rootPort);
        if IsDesignated(v, i) {
          ports := ports[i := ports[i].(v := ports[i].v.(root := designatedRoot, cost := rootPathCost))];
        } else if PortRole(v, i) == AlternateRole && rootPathCost < ports[i].v.cost {
          ports := ports[i := ports[i].(v := Vector(designatedRoot, rootPathCost, switchId, ports[i].portId))];
        }
      }
    }

    /** `stp_send_config`. */
    method SendConfig() returns (out: seq<(nat, Vector)>)
      ensures out == Announcements(State(), |ports|)
    {
      out := [];
      var v := State();
      for i := 0 to |ports|
        invariant out == Announcements(State(), i)
      {
        if IsDesignated(v, i) && MaySend(v) {
          out := out + [(i, Announcement(v, i))];
        }
      }
    }

    /** `stp_handle_config_packet`: the new state and the messages sent. */
    method HandleConfig(p: nat, c: Vector) returns (out: seq<(nat, Vector)>)
      requires WellFormed(State()) && p < |ports|
      modifies this`designatedRoot, this`rootPathCost, this`rootPort, this`ports, this`helloActive
      ensures State() == Handled(old(State()), p, c) && out == Replies(old(State()), p, c)
      ensures WellFormed(State())
      ensures helloActive <==> old(helloActive) && (Prior(c, old(ports)[p].v) ==> designatedRoot == switchId)
    {
      if Prior(c, ports[p].v) {
        ports := ports[p := ports[p].(v := c)];
        ghost var l := State();
        assert l == Learned(old(State()), p, c);
        var r := SelectRootPort();
        if r == -1 && |ports| > 1 {
          designatedRoot, rootPathCost := switchId, 0;
        }
        if r != -1 {
          designatedRoot := ports[r].v.root;
          rootPort := r;
          rootPathCost := ports[r].v.cost + ports[r].pathCost;
        }
        assert State() == Elected(l);
        RefreshKeeps(State());
        RefreshPorts();
        if designatedRoot != switchId {
          helloActive := false;
        }
        out := SendConfig();
      } else {
        out := [];
        if MaySend(State()) {
          out := [(p, Announcement(State(), p))];
        }
      }
    }
  }

  /** Before the first candidate there is none, and the first candidate is the pick that far. */
  lemma {:induction false} NoEarlierCandidate(b: Bridge, j: nat, first: nat)
    requires j <= first < |b.ports| && b.rootPort < |b.ports|
    requires Pick(b, first) == -1 && Candidate(b, first)
    ensures Pick(b, j) == -1 && (j < first ==> !Candidate(b, j))
    decreases first - j
  {
    if j < first { NoEarlierCandidate(b, j + 1, first); }
  }
}
