/** Address and port translation: the mapping table, the port pool and the timeout sweep. */
module Nat {
  import opened Wrappers

  const PORT_MIN := 12345
  const PORT_MAX := 23456
  const HASH_8BITS := 256
  const ESTABLISHED_TIMEOUT := 60

  datatype Conn = Conn(internalFin: nat, externalFin: nat, internalSeqEnd: nat, externalSeqEnd: nat,
                       internalAck: nat, externalAck: nat)

  /** What `memset` leaves in a new mapping; translation never changes it. */
  const NO_STATS := Conn(0, 0, 0, 0, 0, 0)

  datatype Mapping = Mapping(internalIp: nat, internalPort: nat, externalPort: nat, updateTime: int, conn: Conn)

  datatype Packet = Packet(saddr: nat, sport: nat, daddr: nat, dport: nat, body: seq<nat>)

  /** Mappings by bucket, the ports ever handed out, and the address of the external interface. */
  datatype Table = Table(buckets: seq<seq<Mapping>>, used: set<nat>, extIp: nat)

  /** Exclusive or of the four bytes of an address. */
  function Hash8(ip: nat): (h: nat)
    ensures h < HASH_8BITS
  {
    (((ip % 256) as bv8) ^ ((ip / 0x100 % 256) as bv8) ^
     ((ip / 0x1_0000 % 256) as bv8) ^ ((ip / 0x100_0000 % 256) as bv8)) as nat
  }

  lemma BytesOf(x: nat, y: nat, z: nat, w: nat)
    requires x < 256 && y < 256 && z < 256 && w < 256
    ensures var ip := x * 0x100_0000 + y * 0x1_0000 + z * 0x100 + w;
            ip % 256 == w && ip / 0x100 % 256 == z && ip / 0x1_0000 % 256 == y && ip / 0x100_0000 % 256 == x
  {
    var ip := x * 0x100_0000 + y * 0x1_0000 + z * 0x100 + w;
    assert ip / 0x100 == x * 0x1_0000 + y * 0x100 + z;
    assert ip / 0x1_0000 == x * 0x100 + y;
    assert ip / 0x100_0000 == x;
  }

  lemma XorReversed(a: bv8, b: bv8, c: bv8, d: bv8)
    ensures d ^ c ^ b ^ a == a ^ b ^ c ^ d
  {
  }

  /** An address made of four bytes goes to the bucket numbered by their exclusive or. */
  lemma HashOfBytes(x: nat, y: nat, z: nat, w: nat)
    requires x < 256 && y < 256 && z < 256 && w < 256
    ensures Hash8(x * 0x100_0000 + y * 0x1_0000 + z * 0x100 + w) == (x as bv8 ^ y as bv8 ^ z as bv8 ^ w as bv8) as nat
  {
    BytesOf(x, y, z, w);
    XorReversed(x as bv8, y as bv8, z as bv8, w as bv8);
  }

  // ----- searching a bucket -----

  predicate MatchesInternal(m: Mapping, ip: nat, port: nat) {
    m.internalIp == ip && m.internalPort == port
  }

  /** First position from `k` on whose mapping belongs to the internal endpoint; -1 if none does. */
  ghost function FindInternal(ms: seq<Mapping>, k: nat, ip: nat, port: nat): (i: int)
    requires k <= |ms|
    ensures i == -1 || k <= i < |ms|
    ensures i == -1 <==> forall j :: k <= j < |ms| ==> !MatchesInternal(ms[j], ip, port)
    ensures i >= 0 ==> MatchesInternal(ms[i], ip, port)
    decreases |ms| - k
  {
    if k == |ms| then -1 else if MatchesInternal(ms[k], ip, port) then k else FindInternal(ms, k + 1, ip, port)
  }

  ghost function FindExternal(ms: seq<Mapping>, k: nat, port: nat): (i: int)
    requires k <= |ms|
    ensures i == -1 || k <= i < |ms|
    ensures i == -1 <==> forall j :: k <= j < |ms| ==> ms[j].externalPort != port
    ensures i >= 0 ==> ms[i].externalPort == port
    decreases |ms| - k
  {
    if k == |ms| then -1 else if ms[k].externalPort == port then k else FindExternal(ms, k + 1, port)
  }

  /** `getport`: the least port of the range not handed out yet, or PORT_MAX when there is none. */
  ghost function FirstFree(used: set<nat>, k: nat): (p: nat)
    requires PORT_MIN <= k <= PORT_MAX
    ensures k <= p <= PORT_MAX && (p < PORT_MAX ==> p !in used)
    ensures forall q :: k <= q < p ==> q in used
    decreases PORT_MAX - k
  {
    if k == PORT_MAX then PORT_MAX else if k !in used then k else FirstFree(used, k + 1)
  }

  // ----- operations -----

  ghost function WithBucket(t: Table, b: nat, ms: seq<Mapping>): Table
    requires b < |t.buckets|
  {
    t.(buckets := t.buckets[b := ms])
  }

  function Touched(ms: seq<Mapping>, i: nat, now: int): seq<Mapping>
    requires i < |ms|
  {
    ms[i := ms[i].(updateTime := now)]
  }

  /** The position of the mapping an outbound packet uses; the end of the bucket if it needs a new one. */
  ghost function OutSlot(t: Table, p: Packet): nat
    requires |t.buckets| == HASH_8BITS
  {
    var ms := t.buckets[Hash8(p.daddr)];
    var i := FindInternal(ms, 0, p.saddr, p.sport);
    if i == -1 then |ms| else i
  }

  ghost predicate NeedsPort(t: Table, p: Packet)
    requires |t.buckets| == HASH_8BITS
  {
    FindInternal(t.buckets[Hash8(p.daddr)], 0, p.saddr, p.sport) == -1
  }

  /** The table after an outbound packet. */
  ghost function OutTable(t: Table, p: Packet, now: int): (t': Table)
    requires |t.buckets| == HASH_8BITS
    ensures |t'.buckets| == HASH_8BITS && OutSlot(t, p) < |t'.buckets[Hash8(p.daddr)]|
  {
    var b := Hash8(p.daddr);
    var ms := t.buckets[b];
    var i := FindInternal(ms, 0, p.saddr, p.sport);
    if i == -1 then
      var port := FirstFree(t.used, PORT_MIN);
      WithBucket(t, b, ms + [Mapping(p.saddr, p.sport, port, now, NO_STATS)])
        .(used := if port < PORT_MAX then t.used + {port} else t.used)
    else
      WithBucket(t, b, Touched(ms, i, now))
  }

  ghost function OutPacket(t: Table, p: Packet, now: int): Packet
    requires |t.buckets| == HASH_8BITS
  {
    p.(saddr := t.extIp, sport := OutTable(t, p, now).buckets[Hash8(p.daddr)][OutSlot(t, p)].externalPort)
  }

  /** The position of the mapping an inbound packet is for, or -1. */
  ghost function InSlot(t: Table, p: Packet): int
    requires |t.buckets| == HASH_8BITS
  {
    if p.daddr == t.extIp then FindExternal(t.buckets[Hash8(p.saddr)], 0, p.dport) else -1
  }

  ghost function InTable(t: Table, p: Packet, now: int): Table
    requires |t.buckets| == HASH_8BITS
  {
    var i := InSlot(t, p);
    if i == -1 then t else WithBucket(t, Hash8(p.saddr), Touched(t.buckets[Hash8(p.saddr)], i, now))
  }

  /** An inbound packet without a mapping is answered with an ICMP error and dropped. */
  ghost function InPacket(t: Table, p: Packet): Option<Packet>
    requires |t.buckets| == HASH_8BITS
  {
    var i := InSlot(t, p);
    if i == -1 then None
    else
      var m := t.buckets[Hash8(p.saddr)][i];
      Some(p.(daddr := m.internalIp, dport := m.internalPort))
  }

  predicate Finished(c: Conn) {
    && c.externalFin == 1 && c.internalFin == 1
    && c.externalSeqEnd == c.internalAck && c.internalSeqEnd == c.externalAck
  }

  predicate Expired(m: Mapping, now: int) {
    Finished(m.conn) || now - m.updateTime > ESTABLISHED_TIMEOUT
  }

  /** The first `k` mappings of a bucket as a sweep leaves them. */
  ghost function Swept(ms: seq<Mapping>, k: nat, now: int): (r: seq<Mapping>)
    requires k <= |ms|
    ensures |r| <= k
  {
    if k == 0 then []
    else if Expired(ms[k - 1], now) then Swept(ms, k - 1, now)
    else Swept(ms, k - 1, now) + [ms[k - 1]]
  }

  /** A sweep keeps exactly the mappings used within the last 60 seconds, except those whose connection has
      been closed and acknowledged from both sides. */
  lemma {:induction false} SweptMeaning(ms: seq<Mapping>, k: nat, now: int, m: Mapping)
    requires k <= |ms|
    ensures m in Swept(ms, k, now) <==>
            && m in ms[..k] && now - m.updateTime <= 60
            && (m.conn.internalFin == 1 && m.conn.externalFin == 1 ==>
                  m.conn.internalAck != m.conn.externalSeqEnd || m.conn.externalAck != m.conn.internalSeqEnd)
  {
    if k > 0 {
      SweptMeaning(ms, k - 1, now, m);
      assert ms[..k] == ms[..k - 1] + [ms[k - 1]];
    }
  }

  /** `nat_timeout`: mappings go, their ports stay taken. */
  ghost function SweptTable(t: Table, now: int): Table {
    t.(buckets := seq(|t.buckets|, b requires 0 <= b < |t.buckets| => Swept(t.buckets[b], |t.buckets[b]|, now)))
  }

  datatype Op = Outbound(p: Packet, now: int) | Inbound(p: Packet, now: int) | Sweep(now: int)

  ghost function Do(t: Table, op: Op): (t': Table)
    requires |t.buckets| == HASH_8BITS
    ensures |t'.buckets| == HASH_8BITS
  {
    match op
    case Outbound(p, now) => OutTable(t, p, now)
    case Inbound(p, now) => InTable(t, p, now)
    case Sweep(now) => SweptTable(t, now)
  }

  ghost function DoAll(t: Table, ops: seq<Op>): (t': Table)
    requires |t.buckets| == HASH_8BITS
    ensures |t'.buckets| == HASH_8BITS
  {
    if ops == [] then t else Do(DoAll(t, ops[..|ops| - 1]), ops[|ops| - 1])
  }

  ghost function Empty(extIp: nat): Table {
    Table(seq(HASH_8BITS, _ => []), {}, extIp)
  }

  // ----- which ports are in use -----

  ghost predicate Live(t: Table, b: int, i: int) {
    0 <= b < |t.buckets| && 0 <= i < |t.buckets[b]|
  }

  ghost function PortAt(t: Table, b: int, i: int): nat
    requires Live(t, b, i)
  {
    t.buckets[b][i].externalPort
  }

  /** A port of the range belongs to at most one live mapping and has been handed out; connection
      statistics are never filled in. */
  ghost predicate Consistent(t: Table) {
    && |t.buckets| == HASH_8BITS
    && (forall b, i :: Live(t, b, i) ==> PORT_MIN <= PortAt(t, b, i) <= PORT_MAX && t.buckets[b][i].conn == NO_STATS)
    && (forall b, i :: Live(t, b, i) && PortAt(t, b, i) < PORT_MAX ==> PortAt(t, b, i) in t.used)
    && (forall b, i, c, j :: Live(t, b, i) && Live(t, c, j) && PortAt(t, b, i) == PortAt(t, c, j) < PORT_MAX ==>
          b == c && i == j)
  }

  /** No mapping has been given the number that means "none left". */
  ghost predicate AllInRange(t: Table) {
    forall b, i :: Live(t, b, i) ==> PortAt(t, b, i) < PORT_MAX
  }

  /** Same mappings at the same places, except for the time stamp of one. */
  lemma TouchKeepsPorts(t: Table, b: nat, i: nat, now: int)
    requires Consistent(t) && Live(t, b, i)
    ensures Consistent(WithBucket(t, b, Touched(t.buckets[b], i, now)))
    ensures AllInRange(t) ==> AllInRange(WithBucket(t, b, Touched(t.buckets[b], i, now)))
  {
    var t' := WithBucket(t, b, Touched(t.buckets[b], i, now));
    assert forall c, j :: Live(t', c, j) <==> Live(t, c, j);
    assert forall c, j :: Live(t', c, j) ==> PortAt(t', c, j) == PortAt(t, c, j) && t'.buckets[c][j].conn == t.buckets[c][j].conn;
  }

  lemma AppendKeepsPorts(t: Table, b: nat, m: Mapping, port: nat)
    requires Consistent(t) && b < |t.buckets| && m.externalPort == port && PORT_MIN <= port <= PORT_MAX && m.conn == NO_STATS
    requires port < PORT_MAX ==> port !in t.used
    ensures Consistent(WithBucket(t, b, t.buckets[b] + [m]).(used := if port < PORT_MAX then t.used + {port} else t.used))
  {
    var t' := WithBucket(t, b, t.buckets[b] + [m]).(used := if port < PORT_MAX then t.used + {port} else t.used);
    var n := |t.buckets[b]|;
    assert PortAt(t', b, n) == port;
    forall c, j | Live(t', c, j) && !(c == b && j == n)
      ensures Live(t, c, j) && t'.buckets[c][j] == t.buckets[c][j]
    {
    }
  }

  lemma OutKeepsPorts(t: Table, p: Packet, now: int)
    requires Consistent(t)
    ensures Consistent(OutTable(t, p, now))
  {
    var b := Hash8(p.daddr);
    var i := FindInternal(t.buckets[b], 0, p.saddr, p.sport);
    if i == -1 {
      var port := FirstFree(t.used, PORT_MIN);
      AppendKeepsPorts(t, b, Mapping(p.saddr, p.sport, port, now, NO_STATS), port);
    } else {
      assert Live(t, b, i);
      TouchKeepsPorts(t, b, i, now);
    }
  }

  /** Every mapping has a port of its own in the range as long as the pool lasts, and not beyond:
      an outbound packet breaks this exactly when it needs a port and the whole range has been used. */
  lemma OutKeepsRange(t: Table, p: Packet, now: int)
    requires Consistent(t) && AllInRange(t)
    ensures AllInRange(OutTable(t, p, now)) <==>
            !(NeedsPort(t, p) && forall q :: PORT_MIN <= q < PORT_MAX ==> q in t.used)
  {
    var b := Hash8(p.daddr);
    var ms := t.buckets[b];
    var t' := OutTable(t, p, now);
    if NeedsPort(t, p) {
      var port := FirstFree(t.used, PORT_MIN);
      assert Live(t', b, |ms|) && PortAt(t', b, |ms|) == port;
      forall c, j | Live(t', c, j) && !(c == b && j == |ms|) ensures PortAt(t', c, j) < PORT_MAX {
        assert Live(t, c, j) && PortAt(t', c, j) == PortAt(t, c, j);
      }
    } else {
      var i := FindInternal(ms, 0, p.saddr, p.sport);
      assert Live(t, b, i);
      TouchKeepsPorts(t, b, i, now);
    }
  }

  /** Where each mapping a sweep leaves came from, in the same order. */
  ghost function Origins(ms: seq<Mapping>, k: nat, now: int): (from: seq<nat>)
    requires k <= |ms|
    ensures forall i :: 0 <= i < |from| ==> from[i] < k
  {
    if k == 0 then []
    else if Expired(ms[k - 1], now) then Origins(ms, k - 1, now)
    else Origins(ms, k - 1, now) + [k - 1]
  }

  lemma {:induction false} OriginsIncrease(ms: seq<Mapping>, k: nat, now: int)
    requires k <= |ms|
    ensures forall i, j :: 0 <= i < j < |Origins(ms, k, now)| ==> Origins(ms, k, now)[i] < Origins(ms, k, now)[j]
  {
    if k > 0 { OriginsIncrease(ms, k - 1, now); }
  }

  lemma {:induction false} OriginsHold(ms: seq<Mapping>, k: nat, now: int, i: nat)
    requires k <= |ms| && i < |Swept(ms, k, now)|
    ensures |Origins(ms, k, now)| == |Swept(ms, k, now)| && ms[Origins(ms, k, now)[i]] == Swept(ms, k, now)[i]
  {
    OriginsCount(ms, k, now);
    if i < |Swept(ms, k - 1, now)| {
      OriginsHold(ms, k - 1, now, i);
    } else {
      OriginsCount(ms, k - 1, now);
    }
  }

  lemma {:induction false} OriginsCount(ms: seq<Mapping>, k: nat, now: int)
    requires k <= |ms|
    ensures |Origins(ms, k, now)| == |Swept(ms, k, now)|
  {
    if k > 0 { OriginsCount(ms, k - 1, now); }
  }

  /** The mapping at a place of a swept table, found in the table before. */
  lemma SweptPlace(t: Table, now: int, b: int, i: int) returns (k: int)
    requires Live(SweptTable(t, now), b, i)
    ensures i < |Origins(t.buckets[b], |t.buckets[b]|, now)| && k == Origins(t.buckets[b], |t.buckets[b]|, now)[i]
    ensures Live(t, b, k) && t.buckets[b][k] == SweptTable(t, now).buckets[b][i]
  {
    OriginsHold(t.buckets[b], |t.buckets[b]|, now, i);
    k := Origins(t.buckets[b], |t.buckets[b]|, now)[i];
  }

  lemma SweepKeepsPorts(t: Table, now: int)
    requires Consistent(t)
    ensures Consistent(SweptTable(t, now))
    ensures AllInRange(t) ==> AllInRange(SweptTable(t, now))
  {
    var t' := SweptTable(t, now);
    forall b, i | Live(t', b, i)
      ensures PORT_MIN <= PortAt(t', b, i) <= PORT_MAX && t'.buckets[b][i].conn == NO_STATS
      ensures PortAt(t', b, i) < PORT_MAX ==> PortAt(t', b, i) in t.used
      ensures AllInRange(t) ==> PortAt(t', b, i) < PORT_MAX
    {
      var k := SweptPlace(t, now, b, i);
      assert PortAt(t, b, k) == PortAt(t', b, i);
    }
    forall b, i, c, j | Live(t', b, i) && Live(t', c, j) && PortAt(t', b, i) == PortAt(t', c, j) < PORT_MAX
      ensures b == c && i == j
    {
      var k := SweptPlace(t, now, b, i);
      var l := SweptPlace(t, now, c, j);
      assert PortAt(t, b, k) == PortAt(t, c, l);
      OriginsIncrease(t.buckets[b], |t.buckets[b]|, now);
    }
  }

  lemma DoKeepsPorts(t: Table, op: Op)
    requires Consistent(t)
    ensures Consistent(Do(t, op))
  {
    match op
    case Outbound(p, now) => OutKeepsPorts(t, p, now);
    case Inbound(p, now) =>
      var i := InSlot(t, p);
      if i != -1 {
        assert Live(t, Hash8(p.saddr), i);
        TouchKeepsPorts(t, Hash8(p.saddr), i, now);
      }
    case Sweep(now) => SweepKeepsPorts(t, now);
  }

  /** In every run, mappings with a port in the range have it to themselves. */
  lemma {:induction false} EveryRunConsistent(extIp: nat, ops: seq<Op>)
    ensures Consistent(DoAll(Empty(extIp), ops))
  {
    if ops != [] {
      EveryRunConsistent(extIp, ops[..|ops| - 1]);
      DoKeepsPorts(DoAll(Empty(extIp), ops[..|ops| - 1]), ops[|ops| - 1]);
    }
  }

  // ----- replies -----

  /** No bucket holds two mappings of one internal endpoint. */
  ghost predicate OneEach(t: Table) {
    forall b, i, j :: Live(t, b, i) && Live(t, b, j) && SameInternal(t.buckets[b][i], t.buckets[b][j]) ==> i == j
  }

  predicate SameInternal(m: Mapping, n: Mapping) {
    MatchesInternal(m, n.internalIp, n.internalPort)
  }

  lemma TouchKeepsOneEach(t: Table, b: nat, i: nat, now: int)
    requires OneEach(t) && Live(t, b, i)
    ensures OneEach(WithBucket(t, b, Touched(t.buckets[b], i, now)))
  {
    var t' := WithBucket(t, b, Touched(t.buckets[b], i, now));
    forall c, j, k | Live(t', c, j) && Live(t', c, k) && SameInternal(t'.buckets[c][j], t'.buckets[c][k])
      ensures j == k
    {
      assert Live(t, c, j) && Live(t, c, k) && SameInternal(t.buckets[c][j], t.buckets[c][k]);
    }
  }

  lemma NewKeepsOneEach(t: Table, p: Packet, now: int)
    requires |t.buckets| == HASH_8BITS && OneEach(t) && NeedsPort(t, p)
    ensures OneEach(OutTable(t, p, now))
  {
    var t', b := OutTable(t, p, now), Hash8(p.daddr);
    var n := |t.buckets[b]|;
    forall c, j | Live(t', c, j) && !(c == b && j == n)
      ensures Live(t, c, j) && t'.buckets[c][j] == t.buckets[c][j]
      ensures c == b ==> !MatchesInternal(t'.buckets[c][j], p.saddr, p.sport)
    {
    }
  }

  lemma SweepKeepsOneEach(t: Table, now: int)
    requires OneEach(t)
    ensures OneEach(SweptTable(t, now))
  {
    var t' := SweptTable(t, now);
    forall b, i, j | Live(t', b, i) && Live(t', b, j) && SameInternal(t'.buckets[b][i], t'.buckets[b][j])
      ensures i == j
    {
      var k := SweptPlace(t, now, b, i);
      var l := SweptPlace(t, now, b, j);
      OriginsIncrease(t.buckets[b], |t.buckets[b]|, now);
    }
  }

  lemma DoKeepsOneEach(t: Table, op: Op)
    requires |t.buckets| == HASH_8BITS && OneEach(t)
    ensures OneEach(Do(t, op))
  {
    match op
    case Outbound(p, now) =>
      if NeedsPort(t, p) {
        NewKeepsOneEach(t, p, now);
      } else {
        TouchKeepsOneEach(t, Hash8(p.daddr), OutSlot(t, p), now);
      }
    case Inbound(p, now) =>
      if InSlot(t, p) != -1 { TouchKeepsOneEach(t, Hash8(p.saddr), InSlot(t, p), now); }
    case Sweep(now) => SweepKeepsOneEach(t, now);
  }

  /** An internal endpoint, the bucket of its peer and the port it goes by. */
  datatype Flow = Flow(bucket: nat, ip: nat, port: nat, ext: nat)

  ghost predicate IsFor(m: Mapping, f: Flow, used: int) {
    MatchesInternal(m, f.ip, f.port) && m.externalPort == f.ext && m.updateTime == used && m.conn == NO_STATS
  }

  /** The table holds the mapping of a flow, last used at `used`. */
  ghost predicate Maps(t: Table, f: Flow, used: int) {
    exists i :: Live(t, f.bucket, i) && IsFor(t.buckets[f.bucket][i], f, used)
  }

  /** No mapping has the port of the flow, and none will get it. */
  ghost predicate Gone(t: Table, ext: nat) {
    ext in t.used && forall b, i :: Live(t, b, i) ==> PortAt(t, b, i) != ext
  }

  /** The packet belongs to the flow, in either direction. */
  predicate Uses(op: Op, f: Flow, extIp: nat) {
    match op
    case Outbound(p, _) => Hash8(p.daddr) == f.bucket && p.saddr == f.ip && p.sport == f.port
    case Inbound(p, _) => Hash8(p.saddr) == f.bucket && p.daddr == extIp && p.dport == f.ext
    case Sweep(_) => false
  }

  /** When the mapping of a flow was last used; None once a sweep has found it idle for too long. */
  ghost function LastUse(ops: seq<Op>, f: Flow, extIp: nat, since: int): Option<int> {
    if ops == [] then Some(since)
    else
      var op, u := ops[|ops| - 1], LastUse(ops[..|ops| - 1], f, extIp, since);
      if u.None? then None else UseAfter(op, f, extIp, u.value)
  }

  ghost function UseAfter(op: Op, f: Flow, extIp: nat, used: int): Option<int> {
    if Uses(op, f, extIp) then Some(op.now)
    else if op.Sweep? && op.now - used > ESTABLISHED_TIMEOUT then None
    else Some(used)
  }

  /** What the table holds about a flow whose mapping was last used at `u`, or is gone. */
  ghost predicate Tracks(t: Table, f: Flow, u: Option<int>) {
    if u.Some? then Maps(t, f, u.value) else Gone(t, f.ext)
  }

  lemma OutboundTracks(t: Table, p: Packet, now: int, f: Flow, used: int)
    requires Consistent(t) && OneEach(t) && Maps(t, f, used)
    ensures Tracks(OutTable(t, p, now), f, UseAfter(Outbound(p, now), f, t.extIp, used))
  {
    var i :| Live(t, f.bucket, i) && IsFor(t.buckets[f.bucket][i], f, used);
    var t', b, k := OutTable(t, p, now), Hash8(p.daddr), OutSlot(t, p);
    assert Live(t', f.bucket, i);
    if Uses(Outbound(p, now), f, t.extIp) {
      assert SameInternal(t.buckets[b][k], t.buckets[b][i]) && Live(t, b, k);
      assert IsFor(t'.buckets[f.bucket][i], f, now);
    } else {
      assert t'.buckets[f.bucket][i] == t.buckets[f.bucket][i];
    }
  }

  lemma InboundTracks(t: Table, p: Packet, now: int, f: Flow, used: int)
    requires Consistent(t) && f.ext < PORT_MAX && Maps(t, f, used)
    ensures Tracks(InTable(t, p, now), f, UseAfter(Inbound(p, now), f, t.extIp, used))
  {
    var i :| Live(t, f.bucket, i) && IsFor(t.buckets[f.bucket][i], f, used);
    var t', b, k := InTable(t, p, now), Hash8(p.saddr), InSlot(t, p);
    assert Live(t', f.bucket, i) && PortAt(t, f.bucket, i) == f.ext;
    if Uses(Inbound(p, now), f, t.extIp) {
      assert Live(t, b, k) && PortAt(t, b, k) == PortAt(t, b, i);
      assert IsFor(t'.buckets[f.bucket][i], f, now);
    } else {
      assert t'.buckets[f.bucket][i] == t.buckets[f.bucket][i];
    }
  }

  lemma SweepTracks(t: Table, now: int, f: Flow, used: int)
    requires Consistent(t) && f.ext < PORT_MAX && Maps(t, f, used)
    ensures Tracks(SweptTable(t, now), f, UseAfter(Sweep(now), f, t.extIp, used))
  {
    var i :| Live(t, f.bucket, i) && IsFor(t.buckets[f.bucket][i], f, used);
    var t', ms, m := SweptTable(t, now), t.buckets[f.bucket], t.buckets[f.bucket][i];
    assert PortAt(t, f.bucket, i) == f.ext;
    SweptMeaning(ms, |ms|, now, m);
    assert ms[..|ms|] == ms && m in ms;
    if now - used > ESTABLISHED_TIMEOUT {
      forall c, j | Live(t', c, j) ensures PortAt(t', c, j) != f.ext {
        var k := SweptPlace(t, now, c, j);
        SweptMeaning(t.buckets[c], |t.buckets[c]|, now, t'.buckets[c][j]);
        assert PortAt(t, c, k) == PortAt(t', c, j);
      }
    } else {
      var j :| 0 <= j < |Swept(ms, |ms|, now)| && Swept(ms, |ms|, now)[j] == m;
      assert Live(t', f.bucket, j) && t'.buckets[f.bucket][j] == m;
    }
  }

  lemma SweepKeepsGone(t: Table, now: int, ext: nat)
    requires Gone(t, ext)
    ensures Gone(SweptTable(t, now), ext)
  {
    var t' := SweptTable(t, now);
    forall b, i | Live(t', b, i) ensures PortAt(t', b, i) != ext {
      var k := SweptPlace(t, now, b, i);
      assert PortAt(t, b, k) == PortAt(t', b, i);
    }
  }

  lemma TouchKeepsGone(t: Table, b: nat, i: nat, now: int, ext: nat)
    requires Live(t, b, i) && Gone(t, ext)
    ensures Gone(WithBucket(t, b, Touched(t.buckets[b], i, now)), ext)
  {
    var t' := WithBucket(t, b, Touched(t.buckets[b], i, now));
    forall c, j | Live(t', c, j) ensures PortAt(t', c, j) != ext {
      assert Live(t, c, j) && PortAt(t', c, j) == PortAt(t, c, j);
    }
  }

  lemma NewKeepsGone(t: Table, p: Packet, now: int, ext: nat)
    requires |t.buckets| == HASH_8BITS && NeedsPort(t, p) && Gone(t, ext) && ext < PORT_MAX
    ensures Gone(OutTable(t, p, now), ext)
  {
    var t', b := OutTable(t, p, now), Hash8(p.daddr);
    forall c, j | Live(t', c, j) ensures PortAt(t', c, j) != ext {
      if !(c == b && j == |t.buckets[b]|) {
        assert Live(t, c, j) && PortAt(t', c, j) == PortAt(t, c, j);
      }
    }
  }

  lemma GoneStays(t: Table, op: Op, ext: nat)
    requires |t.buckets| == HASH_8BITS && Gone(t, ext) && ext < PORT_MAX
    ensures Gone(Do(t, op), ext)
  {
    match op
    case Outbound(p, now) =>
      if NeedsPort(t, p) {
        NewKeepsGone(t, p, now, ext);
      } else {
        TouchKeepsGone(t, Hash8(p.daddr), OutSlot(t, p), now, ext);
      }
    case Inbound(p, now) =>
      if InSlot(t, p) != -1 { TouchKeepsGone(t, Hash8(p.saddr), InSlot(t, p), now, ext); }
    case Sweep(now) => SweepKeepsGone(t, now, ext);
  }

  lemma DoTracks(t: Table, op: Op, f: Flow, u: Option<int>)
    requires Consistent(t) && OneEach(t) && f.ext < PORT_MAX && Tracks(t, f, u)
    ensures Do(t, op).extIp == t.extIp
    ensures Tracks(Do(t, op), f, if u.None? then None else UseAfter(op, f, t.extIp, u.value))
  {
    if u.None? {
      GoneStays(t, op, f.ext);
    } else {
      match op
      case Outbound(p, now) => OutboundTracks(t, p, now, f, u.value);
      case Inbound(p, now) => InboundTracks(t, p, now, f, u.value);
      case Sweep(now) => SweepTracks(t, now, f, u.value);
    }
  }

  lemma {:induction false} RunTracks(t: Table, ops: seq<Op>, f: Flow, since: int)
    requires Consistent(t) && OneEach(t) && f.ext < PORT_MAX && Maps(t, f, since)
    ensures Consistent(DoAll(t, ops)) && OneEach(DoAll(t, ops)) && DoAll(t, ops).extIp == t.extIp
    ensures Tracks(DoAll(t, ops), f, LastUse(ops, f, t.extIp, since))
  {
    if ops != [] {
      var m := |ops| - 1;
      RunTracks(t, ops[..m], f, since);
      var t' := DoAll(t, ops[..m]);
      DoKeepsPorts(t', ops[m]);
      DoKeepsOneEach(t', ops[m]);
      DoTracks(t', ops[m], f, LastUse(ops[..m], f, t.extIp, since));
    }
  }

  /** A packet to a mapped port goes to the endpoint it is mapped to, and to no other. */
  lemma MappedPortFindsOwner(t: Table, f: Flow, used: int, p: Packet)
    requires Consistent(t) && Maps(t, f, used) && f.ext < PORT_MAX
    requires Hash8(p.saddr) == f.bucket && p.daddr == t.extIp && p.dport == f.ext
    ensures InPacket(t, p) == Some(p.(daddr := f.ip, dport := f.port))
  {
    var i :| Live(t, f.bucket, i) && IsFor(t.buckets[f.bucket][i], f, used);
    var j := FindExternal(t.buckets[f.bucket], 0, f.ext);
    assert Live(t, f.bucket, j) && PortAt(t, f.bucket, j) == PortAt(t, f.bucket, i);
  }

  lemma GonePortDrops(t: Table, p: Packet)
    requires |t.buckets| == HASH_8BITS && Gone(t, p.dport)
    ensures InPacket(t, p) == None
  {
    var b := Hash8(p.saddr);
    forall i | 0 <= i < |t.buckets[b]| ensures t.buckets[b][i].externalPort != p.dport {
      assert Live(t, b, i);
    }
  }

  /** The flow of an outbound packet. */
  ghost function FlowOf(t: Table, p: Packet, now: int): Flow
    requires |t.buckets| == HASH_8BITS
  {
    Flow(Hash8(p.daddr), p.saddr, p.sport, OutPacket(t, p, now).sport)
  }

  lemma OutMaps(t: Table, p: Packet, now: int)
    requires Consistent(t)
    ensures Maps(OutTable(t, p, now), FlowOf(t, p, now), now)
  {
    var t', b, i := OutTable(t, p, now), Hash8(p.daddr), OutSlot(t, p);
    if !NeedsPort(t, p) { assert Live(t, b, i); }
    assert Live(t', b, i) && IsFor(t'.buckets[b][i], FlowOf(t, p, now), now);
  }

  ghost function Reversed(p: Packet, body: seq<nat>): Packet {
    Packet(p.daddr, p.dport, p.saddr, p.sport, body)
  }

  /** After any traffic and sweeps, a reply to a translated packet is translated into the reverse of the
      original exactly if no sweep found the flow idle for too long since its last packet in either
      direction; otherwise it is dropped. */
  lemma ReplyIsReversed(t: Table, p: Packet, now: int, ops: seq<Op>, body: seq<nat>)
    requires Consistent(t) && OneEach(t) && OutPacket(t, p, now).sport < PORT_MAX
    ensures OutPacket(t, p, now).body == p.body && OutPacket(t, p, now).saddr == t.extIp
    ensures InPacket(DoAll(OutTable(t, p, now), ops), Reversed(OutPacket(t, p, now), body)) ==
            if LastUse(ops, FlowOf(t, p, now), t.extIp, now).Some? then Some(Reversed(p, body)) else None
  {
    var f, t1 := FlowOf(t, p, now), OutTable(t, p, now);
    var end, q, u := DoAll(t1, ops), Reversed(OutPacket(t, p, now), body), LastUse(ops, f, t.extIp, now);
    OutKeepsPorts(t, p, now);
    DoKeepsOneEach(t, Outbound(p, now));
    OutMaps(t, p, now);
    RunTracks(t1, ops, f, now);
    if u.Some? {
      MappedPortFindsOwner(end, f, u.value, q);
    } else {
      GonePortDrops(end, q);
    }
  }

  /** In every run no bucket holds two mappings of one endpoint. */
  lemma {:induction false} EveryRunOneEach(extIp: nat, ops: seq<Op>)
    ensures OneEach(DoAll(Empty(extIp), ops))
  {
    if ops != [] {
      EveryRunOneEach(extIp, ops[..|ops| - 1]);
      DoKeepsOneEach(DoAll(Empty(extIp), ops[..|ops| - 1]), ops[|ops| - 1]);
    }
  }

  /** With the pool used up, two flows to one host share a port and the second gets no reply of its own. */
  lemma ExhaustedPoolMisdelivers(t: Table, p: Packet, q: Packet, now: int)
    requires Consistent(t) && forall port :: PORT_MIN <= port < PORT_MAX ==> port in t.used
    requires t.buckets[Hash8(p.daddr)] == []
    requires q.daddr == p.daddr && (q.saddr != p.saddr || q.sport != p.sport)
    ensures var t1 := OutTable(t, p, now);
            && OutPacket(t, p, now).sport == OutPacket(t1, q, now).sport == PORT_MAX
            && InPacket(OutTable(t1, q, now), Reversed(OutPacket(t1, q, now), [])) ==
               Some(Packet(q.daddr, q.dport, p.saddr, p.sport, []))
  {
    var b, t1 := Hash8(p.daddr), OutTable(t, p, now);
    assert t1.buckets[b] == [Mapping(p.saddr, p.sport, PORT_MAX, now, NO_STATS)];
    assert FindInternal(t1.buckets[b], 0, q.saddr, q.sport) == -1;
    var t2 := OutTable(t1, q, now);
    assert t2.buckets[b][0].externalPort == PORT_MAX && FindExternal(t2.buckets[b], 0, PORT_MAX) == 0;
  }

  /** Ports are never given back: a sweep of every mapping leaves the pool as it was. */
  lemma {:induction false} PoolNeverRefills(t: Table, ops: seq<Op>)
    requires |t.buckets| == HASH_8BITS
    ensures t.used <= DoAll(t, ops).used
  {
    if ops != [] { PoolNeverRefills(t, ops[..|ops| - 1]); }
  }

  /** How many packets of a run needed a port of their own. */
  ghost function NewFlows(t: Table, ops: seq<Op>): nat
    requires |t.buckets| == HASH_8BITS
  {
    if ops == [] then 0
    else
      var before, op := ops[..|ops| - 1], ops[|ops| - 1];
      NewFlows(t, before) + if op.Outbound? && NeedsPort(DoAll(t, before), op.p) then 1 else 0
  }

  /** The first `n` ports of the range, or all of them. */
  ghost predicate IsFirstPorts(used: set<nat>, n: nat) {
    forall q: nat :: q in used <==> PORT_MIN <= q < PORT_MAX && q < PORT_MIN + n
  }

  ghost function NthPort(n: nat): nat {
    if PORT_MIN + n < PORT_MAX then PORT_MIN + n else PORT_MAX
  }

  lemma FirstFreeIsNth(used: set<nat>, n: nat)
    requires IsFirstPorts(used, n)
    ensures FirstFree(used, PORT_MIN) == NthPort(n)
  {
    assert NthPort(n) == PORT_MAX || NthPort(n) !in used;
  }

  lemma OneMorePort(used: set<nat>, n: nat)
    requires IsFirstPorts(used, n)
    ensures IsFirstPorts(if NthPort(n) < PORT_MAX then used + {NthPort(n)} else used, n + 1)
  {
  }

  lemma DoKeepsOrder(t: Table, op: Op, n: nat)
    requires |t.buckets| == HASH_8BITS && IsFirstPorts(t.used, n)
    ensures IsFirstPorts(Do(t, op).used, n + if op.Outbound? && NeedsPort(t, op.p) then 1 else 0)
  {
    if op.Outbound? && NeedsPort(t, op.p) {
      FirstFreeIsNth(t.used, n);
      OneMorePort(t.used, n);
    } else {
      assert Do(t, op).used == t.used;
    }
  }

  lemma {:induction false} PortsInOrder(extIp: nat, ops: seq<Op>)
    ensures IsFirstPorts(DoAll(Empty(extIp), ops).used, NewFlows(Empty(extIp), ops))
  {
    if ops != [] {
      var before := ops[..|ops| - 1];
      PortsInOrder(extIp, before);
      DoKeepsOrder(DoAll(Empty(extIp), before), ops[|ops| - 1], NewFlows(Empty(extIp), before));
    }
  }

  lemma FreePortLeft(used: set<nat>, n: nat)
    requires IsFirstPorts(used, n) && n < PORT_MAX - PORT_MIN
    ensures PORT_MIN + n !in used
  {
  }

  /** One operation that leaves the pool large enough keeps every mapping in the range. */
  lemma DoKeepsRange(t: Table, op: Op, n: nat)
    requires Consistent(t) && AllInRange(t) && IsFirstPorts(t.used, n)
    requires op.Outbound? && NeedsPort(t, op.p) ==> n < PORT_MAX - PORT_MIN
    ensures AllInRange(Do(t, op))
  {
    match op
    case Outbound(p, now) =>
      OutKeepsRange(t, p, now);
      if NeedsPort(t, p) { FreePortLeft(t.used, n); }
    case Inbound(p, now) =>
      var i := InSlot(t, p);
      if i != -1 {
        assert Live(t, Hash8(p.saddr), i);
        TouchKeepsPorts(t, Hash8(p.saddr), i, now);
      }
    case Sweep(now) => SweepKeepsPorts(t, now);
  }

  /** In every run with no more new flows than there are ports, all live mappings have ports in the
      range, and no two of them the same. */
  lemma {:induction false} EveryRunInRange(extIp: nat, ops: seq<Op>)
    requires NewFlows(Empty(extIp), ops) <= PORT_MAX - PORT_MIN
    ensures AllInRange(DoAll(Empty(extIp), ops)) && AllDistinct(DoAll(Empty(extIp), ops))
  {
    EveryRunConsistent(extIp, ops);
    if ops != [] {
      var before := ops[..|ops| - 1];
      EveryRunInRange(extIp, before);
      EveryRunConsistent(extIp, before);
      PortsInOrder(extIp, before);
      DoKeepsRange(DoAll(Empty(extIp), before), ops[|ops| - 1], NewFlows(Empty(extIp), before));
    }
  }

  ghost predicate AllDistinct(t: Table) {
    forall b, i, c, j :: Live(t, b, i) && Live(t, c, j) && PortAt(t, b, i) == PortAt(t, c, j) ==> b == c && i == j
  }

  /** In every run the n-th new flow, counting from zero, gets port PORT_MIN + n, whatever has timed out
      meanwhile; so the pool lasts for exactly PORT_MAX - PORT_MIN flows. */
  lemma NthFlowGetsNthPort(extIp: nat, ops: seq<Op>, p: Packet, now: int)
    requires NeedsPort(DoAll(Empty(extIp), ops), p)
    ensures OutPacket(DoAll(Empty(extIp), ops), p, now).sport == NthPort(NewFlows(Empty(extIp), ops))
  {
    PortsInOrder(extIp, ops);
    FirstFreeIsNth(DoAll(Empty(extIp), ops).used, NewFlows(Empty(extIp), ops));
  }

  // ----- the table as the program keeps it -----

  class NatTable {
    var buckets: seq<seq<Mapping>>
    const assignedPorts: array<bool>
    const extIp: nat

    ghost predicate Valid()
      reads this
    {
      |buckets| == HASH_8BITS && assignedPorts.Length == 65536
    }

    ghost function UsedPorts(): set<nat>
      reads assignedPorts
    {
      set port: nat | port < assignedPorts.Length && assignedPorts[port]
    }

    ghost function State(): Table
      reads this, assignedPorts
    {
      Table(buckets, UsedPorts(), extIp)
    }

    constructor (extIp: nat)
      ensures Valid() && State() == Empty(extIp) && fresh(assignedPorts)
    {
      buckets := seq(HASH_8BITS, _ => []);
      assignedPorts := new bool[65536](_ => false);
      this.extIp := extIp;
    }

    method GetPort() returns (i: nat)
      requires Valid()
      modifies assignedPorts
      ensures i == FirstFree(old(UsedPorts()), PORT_MIN)
      ensures UsedPorts() == if i < PORT_MAX then old(UsedPorts()) + {i} else old(UsedPorts())
    {
      i := PORT_MIN;
      while i < PORT_MAX
        invariant PORT_MIN <= i <= PORT_MAX && UsedPorts() == old(UsedPorts())
        invariant FirstFree(old(UsedPorts()), PORT_MIN) == FirstFree(old(UsedPorts()), i)
      {
        if !assignedPorts[i] {
          assignedPorts[i] := true;
          break;
        }
        assert i in UsedPorts();
        i := i + 1;
      }
    }

    method LookUpInternal(ms: seq<Mapping>, ip: nat, port: nat) returns (i: int)
      ensures i == FindInternal(ms, 0, ip, port)
    {
      for k := 0 to |ms|
        invariant FindInternal(ms, 0, ip, port) == FindInternal(ms, k, ip, port)
      {
        if ms[k].internalIp == ip && ms[k].internalPort == port {
          return k;
        }
      }
      return -1;
    }

    method LookUpExternal(ms: seq<Mapping>, port: nat) returns (i: int)
      ensures i == FindExternal(ms, 0, port)
    {
      for k := 0 to |ms|
        invariant FindExternal(ms, 0, port) == FindExternal(ms, k, port)
      {
        if ms[k].externalPort == port {
          return k;
        }
      }
      return -1;
    }

    /** `do_translation` for DIR_OUT. */
    method TranslateOut(p: Packet, now: int) returns (out: Packet)
      requires Valid()
      modifies this`buckets, assignedPorts
      ensures Valid() && State() == OutTable(old(State()), p, now)
      ensures out == OutPacket(old(State()), p, now)
    {
      var b := Hash8(p.daddr);
      var ms := buckets[b];
      var i := LookUpInternal(ms, p.saddr, p.sport);
      if i == -1 {
        var port := GetPort();
        i := |ms|;
        ms := ms + [Mapping(p.saddr, p.sport, port, now, NO_STATS)];
      } else {
        ms := Touched(ms, i, now);
      }
      out := p.(saddr := extIp, sport := ms[i].externalPort);
      buckets := buckets[b := ms];
    }

    /** `do_translation` for DIR_IN; None is the ICMP error. */
    method TranslateIn(p: Packet, now: int) returns (out: Option<Packet>)
      requires Valid()
      modifies this`buckets
      ensures Valid() && State() == InTable(old(State()), p, now)
      ensures out == InPacket(old(State()), p)
    {
      var b := Hash8(p.saddr);
      var ms := buckets[b];
      var i := -1;
      if p.daddr == extIp {
        i := LookUpExternal(ms, p.dport);
      }
      if i == -1 {
        out := None;
      } else {
        out := Some(p.(daddr := ms[i].internalIp, dport := ms[i].internalPort));
        buckets := buckets[b := Touched(ms, i, now)];
      }
    }

    method SweepBucket(ms: seq<Mapping>, now: int) returns (kept: seq<Mapping>)
      ensures kept == Swept(ms, |ms|, now)
    {
      kept := [];
      for k := 0 to |ms|
        invariant kept == Swept(ms, k, now)
      {
        if !Finished(ms[k].conn) && !(now - ms[k].updateTime > ESTABLISHED_TIMEOUT) {
          kept := kept + [ms[k]];
        }
      }
    }

    /** One round of `nat_timeout`. */
    method TimeOut(now: int)
      requires Valid()
      modifies this`buckets
      ensures Valid() && State() == SweptTable(old(State()), now)
    {
      for b := 0 to HASH_8BITS
        invariant Valid()
        invariant forall c :: 0 <= c < HASH_8BITS ==>
          buckets[c] == if c < b then Swept(old(buckets)[c], |old(buckets)[c]|, now) else old(buckets)[c]
      {
        var kept := SweepBucket(buckets[b], now);
        buckets := buckets[b := kept];
      }
    }
  }
}
