/** The sending side of a TCP socket: sequence numbers, the retransmission queue and the window. */
module TcpSend {
  import opened TcpRing
  import opened TcpReceive

  const WND_MOD := 0x1_0000

  /** A packet kept for retransmission; SYN and FIN take a sequence number and carry no data. */
  datatype Packet = Data(seqNum: nat, payload: seq<byte>) | Control(seqNum: nat)

  function PayloadLen(p: Packet): nat {
    if p.Data? then |p.payload| else 0
  }

  /** The sequence number after the packet. */
  function PacketEnd(p: Packet): nat {
    p.seqNum + if p.Data? then |p.payload| else 1
  }

  datatype Sender = Sender(sndNxt: nat, sndWnd: nat, sendBuf: seq<Packet>)

  /** `tcp_send_packet`. */
  function SentData(s: Sender, data: seq<byte>): Sender {
    Sender((s.sndNxt + |data|) % SEQ_MOD, (s.sndWnd - |data|) % WND_MOD, s.sendBuf + [Data(s.sndNxt, data)])
  }

  /** `tcp_send_control_packet` with SYN or FIN set; other control packets change nothing. */
  function SentControl(s: Sender, queued: bool): Sender {
    if queued then s.(sndNxt := (s.sndNxt + 1) % SEQ_MOD, sendBuf := s.sendBuf + [Control(s.sndNxt)]) else s
  }

  /** Packets among the first `k` that an acknowledgement leaves in the queue: those beyond it. */
  ghost function Unacked(buf: seq<Packet>, k: nat, ack: nat): seq<Packet>
    requires k <= |buf|
  {
    if k == 0 then []
    else if ack >= buf[k - 1].seqNum then Unacked(buf, k - 1, ack)
    else Unacked(buf, k - 1, ack) + [buf[k - 1]]
  }

  ghost function QueuedBytes(buf: seq<Packet>): nat {
    if buf == [] then 0 else QueuedBytes(buf[..|buf| - 1]) + PayloadLen(buf[|buf| - 1])
  }

  /** Payload bytes among the first `k` packets that an acknowledgement takes out of the queue. */
  ghost function Freed(buf: seq<Packet>, k: nat, ack: nat): nat
    requires k <= |buf|
  {
    if k == 0 then 0
    else Freed(buf, k - 1, ack) + if ack >= buf[k - 1].seqNum then PayloadLen(buf[k - 1]) else 0
  }

  /** `remove_ack_data`. */
  ghost function Acked(s: Sender, ack: nat): Sender {
    s.(sendBuf := Unacked(s.sendBuf, |s.sendBuf|, ack),
       sndWnd := (s.sndWnd + Freed(s.sendBuf, |s.sendBuf|, ack)) % WND_MOD)
  }

  /** The queue is a gap-free run of sent packets that ends at `sndNxt`. */
  ghost predicate Contiguous(s: Sender) {
    && s.sndNxt < SEQ_MOD
    && (forall i :: 0 <= i < |s.sendBuf| - 1 ==> Adjacent(s.sendBuf, i))
    && (s.sendBuf != [] ==> PacketEnd(s.sendBuf[|s.sendBuf| - 1]) == s.sndNxt)
  }

  ghost predicate Adjacent(buf: seq<Packet>, i: nat)
    requires i + 1 < |buf|
  {
    PacketEnd(buf[i]) == buf[i + 1].seqNum
  }

  lemma {:induction false} Ascending(s: Sender, i: nat, j: nat)
    requires Contiguous(s) && i <= j < |s.sendBuf|
    ensures s.sendBuf[i].seqNum <= s.sendBuf[j].seqNum <= PacketEnd(s.sendBuf[j]) <= s.sndNxt
    decreases |s.sendBuf| - i, j
  {
    if i < j {
      Ascending(s, i, j - 1);
      Ascending(s, j, j);
      assert Adjacent(s.sendBuf, j - 1);
    } else if j + 1 < |s.sendBuf| {
      assert Adjacent(s.sendBuf, j);
      Ascending(s, j + 1, j + 1);
    }
  }

  /** Where an acknowledgement cuts the queue. */
  ghost predicate CutsAt(buf: seq<Packet>, ack: nat, c: nat) {
    && c <= |buf|
    && (forall i :: 0 <= i < c ==> buf[i].seqNum <= ack)
    && (forall i :: c <= i < |buf| ==> ack < buf[i].seqNum)
  }

  lemma {:induction false} CutPoint(s: Sender, ack: nat) returns (c: nat)
    requires Contiguous(s)
    ensures CutsAt(s.sendBuf, ack, c)
  {
    c := 0;
    while c < |s.sendBuf| && s.sendBuf[c].seqNum <= ack
      invariant c <= |s.sendBuf|
      invariant forall i :: 0 <= i < c ==> s.sendBuf[i].seqNum <= ack
    {
      c := c + 1;
    }
    forall i | c <= i < |s.sendBuf| ensures ack < s.sendBuf[i].seqNum {
      Ascending(s, c, i);
    }
  }

  lemma {:induction false} UnackedIsSuffix(buf: seq<Packet>, k: nat, ack: nat, c: nat)
    requires k <= |buf| && CutsAt(buf, ack, c)
    ensures Unacked(buf, k, ack) == if c <= k then buf[c..k] else []
  {
    if k > 0 {
      UnackedIsSuffix(buf, k - 1, ack, c);
      if c < k { assert buf[c..k] == buf[c..k - 1] + [buf[k - 1]]; }
    }
  }

  lemma SuffixContiguous(s: Sender, c: nat, wnd: nat)
    requires Contiguous(s) && c <= |s.sendBuf|
    ensures Contiguous(Sender(s.sndNxt, wnd, s.sendBuf[c..]))
  {
    var buf := s.sendBuf[c..];
    forall i | 0 <= i < |buf| - 1 ensures Adjacent(buf, i) {
      assert Adjacent(s.sendBuf, c + i);
    }
  }

  /** An acknowledgement only cuts a prefix off the queue, and what is left still ends at `sndNxt`. */
  lemma AckCutsPrefix(s: Sender, ack: nat) returns (c: nat)
    requires Contiguous(s)
    ensures CutsAt(s.sendBuf, ack, c) && Acked(s, ack).sendBuf == s.sendBuf[c..]
    ensures Contiguous(Acked(s, ack))
  {
    c := CutPoint(s, ack);
    UnackedIsSuffix(s.sendBuf, |s.sendBuf|, ack, c);
    assert s.sendBuf[c..|s.sendBuf|] == s.sendBuf[c..];
    SuffixContiguous(s, c, Acked(s, ack).sndWnd);
  }

  /** Packets removed by an acknowledgement that the receiver has not fully acknowledged. */
  ghost predicate DropsUnacked(s: Sender, ack: nat) {
    exists i :: 0 <= i < |s.sendBuf| && s.sendBuf[i].seqNum <= ack < PacketEnd(s.sendBuf[i])
  }

  /** The test `ack >= seq` throws away data the peer has not acknowledged exactly when the number
      acknowledged lies inside the queue: at or after its first packet but before `sndNxt`. */
  lemma WhenAckDropsUnacked(s: Sender, ack: nat)
    requires Contiguous(s)
    ensures DropsUnacked(s, ack) <==> s.sendBuf != [] && s.sendBuf[0].seqNum <= ack < s.sndNxt
  {
    var c := CutPoint(s, ack);
    var n := |s.sendBuf|;
    if s.sendBuf != [] && s.sendBuf[0].seqNum <= ack < s.sndNxt {
      if c < n { assert Adjacent(s.sendBuf, c - 1); }
      assert s.sendBuf[c - 1].seqNum <= ack < PacketEnd(s.sendBuf[c - 1]);
    }
    if i :| 0 <= i < n && s.sendBuf[i].seqNum <= ack < PacketEnd(s.sendBuf[i]) {
      Ascending(s, 0, i);
    }
  }

  /** A packet leaves the queue exactly when it starts at or before the number acknowledged. */
  lemma {:induction false} UnackedMeaning(buf: seq<Packet>, k: nat, ack: nat, p: Packet)
    requires k <= |buf|
    ensures p in Unacked(buf, k, ack) <==> p in buf[..k] && ack < p.seqNum
  {
    if k > 0 {
      UnackedMeaning(buf, k - 1, ack, p);
      assert buf[..k] == buf[..k - 1] + [buf[k - 1]];
    }
  }

  /** Two segments in flight, the first received: the receiver's acknowledgement removes both. */
  lemma SecondSegmentForgotten()
    ensures var s := Sender(1020, 100, [Data(1000, seq(10, _ => 0)), Data(1010, seq(10, _ => 0))]);
            Contiguous(s) && Acked(s, 1010).sendBuf == []
  {
    var s := Sender(1020, 100, [Data(1000, seq(10, _ => 0)), Data(1010, seq(10, _ => 0))]);
    assert Unacked(s.sendBuf, 1, 1010) == [];
  }

  // ----- runs -----

  datatype Op = SendData(data: seq<byte>) | SendControl(queued: bool) | AckArrives(ack: nat)

  ghost function Do(s: Sender, op: Op): Sender {
    match op
    case SendData(d) => SentData(s, d)
    case SendControl(q) => SentControl(s, q)
    case AckArrives(a) => Acked(s, a)
  }

  ghost function DoAll(s: Sender, ops: seq<Op>): Sender {
    if ops == [] then s else Do(DoAll(s, ops[..|ops| - 1]), ops[|ops| - 1])
  }

  /** Sequence numbers an operation uses up. */
  ghost function SeqUse(op: Op): nat {
    match op
    case SendData(d) => |d|
    case SendControl(q) => if q then 1 else 0
    case AckArrives(_) => 0
  }

  ghost function Consumed(ops: seq<Op>): nat {
    if ops == [] then 0 else Consumed(ops[..|ops| - 1]) + SeqUse(ops[|ops| - 1])
  }

  lemma QueuedAppend(buf: seq<Packet>, p: Packet)
    ensures QueuedBytes(buf + [p]) == QueuedBytes(buf) + PayloadLen(p)
  {
    assert (buf + [p])[..|buf + [p]| - 1] == buf;
  }

  /** Window and queued payload together, as 16-bit arithmetic sees them. */
  ghost function Budget(s: Sender): nat {
    (s.sndWnd + QueuedBytes(s.sendBuf)) % WND_MOD
  }

  lemma ModShift(a: int, b: int)
    ensures (a % WND_MOD + b) % WND_MOD == (a + b) % WND_MOD
  {
    var q := a / WND_MOD;
    assert a == q * WND_MOD + a % WND_MOD;
    assert a + b == q * WND_MOD + (a % WND_MOD + b);
  }

  lemma {:induction false} FreedPlusLeft(buf: seq<Packet>, k: nat, ack: nat)
    requires k <= |buf|
    ensures Freed(buf, k, ack) + QueuedBytes(Unacked(buf, k, ack)) == QueuedBytes(buf[..k])
  {
    if k > 0 {
      FreedPlusLeft(buf, k - 1, ack);
      assert buf[..k] == buf[..k - 1] + [buf[k - 1]];
      QueuedAppend(buf[..k - 1], buf[k - 1]);
      QueuedAppend(Unacked(buf, k - 1, ack), buf[k - 1]);
    }
  }

  lemma BudgetKept(s: Sender, op: Op)
    ensures Budget(Do(s, op)) == Budget(s)
  {
    match op
    case SendData(d) =>
      QueuedAppend(s.sendBuf, Data(s.sndNxt, d));
      ModShift(s.sndWnd - |d|, QueuedBytes(s.sendBuf) + |d|);
    case SendControl(q) =>
      QueuedAppend(s.sendBuf, Control(s.sndNxt));
    case AckArrives(a) =>
      var n := |s.sendBuf|;
      FreedPlusLeft(s.sendBuf, n, a);
      assert s.sendBuf[..n] == s.sendBuf;
      ModShift(s.sndWnd + Freed(s.sendBuf, n, a), QueuedBytes(Unacked(s.sendBuf, n, a)));
  }

  lemma AppendContiguous(s: Sender, p: Packet)
    requires Contiguous(s) && p.seqNum == s.sndNxt && PacketEnd(p) < SEQ_MOD
    ensures Contiguous(s.(sndNxt := PacketEnd(p), sendBuf := s.sendBuf + [p]))
  {
    var buf := s.sendBuf + [p];
    forall i | 0 <= i < |buf| - 1 ensures Adjacent(buf, i) {
      if i + 1 < |s.sendBuf| { assert Adjacent(s.sendBuf, i); }
    }
  }

  lemma QueueKept(s: Sender, op: Op)
    requires Contiguous(s) && s.sndNxt + SeqUse(op) < SEQ_MOD
    ensures Contiguous(Do(s, op)) && Do(s, op).sndNxt == s.sndNxt + SeqUse(op)
  {
    match op
    case SendData(d) => AppendContiguous(s, Data(s.sndNxt, d));
    case SendControl(q) => if q { AppendContiguous(s, Control(s.sndNxt)); }
    case AckArrives(a) => var _ := AckCutsPrefix(s, a);
  }

  /** In every run of sends and arbitrary acknowledgements the queue stays a gap-free run of sent
      packets ending at `sndNxt`, and window plus queued payload is conserved. */
  lemma {:induction false} EveryRunKeepsQueue(iss: nat, wnd: nat, ops: seq<Op>)
    requires iss + Consumed(ops) < SEQ_MOD
    ensures var s := DoAll(Sender(iss, wnd, []), ops);
            Contiguous(s) && s.sndNxt == iss + Consumed(ops) && Budget(s) == Budget(Sender(iss, wnd, []))
  {
    if ops != [] {
      var m := |ops| - 1;
      EveryRunKeepsQueue(iss, wnd, ops[..m]);
      BudgetKept(DoAll(Sender(iss, wnd, []), ops[..m]), ops[m]);
      QueueKept(DoAll(Sender(iss, wnd, []), ops[..m]), ops[m]);
    }
  }

  // ----- what is in the queue -----

  /** The sequence number of whatever is sent next after `ops`. */
  ghost function NumberAfter(iss: nat, ops: seq<Op>): nat {
    (iss + Consumed(ops)) % SEQ_MOD
  }

  /** The operation sends packet `p` when `seqNum` is due. */
  ghost predicate Sends(op: Op, seqNum: nat, p: Packet) {
    match op
    case SendData(d) => p == Data(seqNum, d)
    case SendControl(q) => q && p == Control(seqNum)
    case AckArrives(_) => false
  }

  ghost predicate Acknowledges(op: Op, p: Packet) {
    op.AckArrives? && op.ack >= p.seqNum
  }

  /** Operation `i` sends `p`, and no later acknowledgement is at or above its number. */
  ghost predicate Outstanding(iss: nat, ops: seq<Op>, i: int, p: Packet) {
    && 0 <= i < |ops| && Sends(ops[i], NumberAfter(iss, ops[..i]), p)
    && forall j :: i < j < |ops| ==> !Acknowledges(ops[j], p)
  }

  ghost predicate SentUnacked(iss: nat, ops: seq<Op>, p: Packet) {
    exists i :: Outstanding(iss, ops, i, p)
  }

  lemma OutstandingStep(iss: nat, ops: seq<Op>, i: nat, p: Packet)
    requires i + 1 < |ops|
    ensures Outstanding(iss, ops, i, p) <==>
            Outstanding(iss, ops[..|ops| - 1], i, p) && !Acknowledges(ops[|ops| - 1], p)
  {
    var m := |ops| - 1;
    assert ops[..m][..i] == ops[..i];
    assert forall j :: i < j < m ==> ops[..m][j] == ops[j];
  }

  lemma SentUnackedStep(iss: nat, ops: seq<Op>, p: Packet)
    requires ops != []
    ensures var before, op := ops[..|ops| - 1], ops[|ops| - 1];
            SentUnacked(iss, ops, p) <==>
            Sends(op, NumberAfter(iss, before), p) || (SentUnacked(iss, before, p) && !Acknowledges(op, p))
  {
    var m := |ops| - 1;
    if i :| Outstanding(iss, ops, i, p) {
      if i < m { OutstandingStep(iss, ops, i, p); }
    }
    if Sends(ops[m], NumberAfter(iss, ops[..m]), p) {
      assert Outstanding(iss, ops, m, p);
    }
    if SentUnacked(iss, ops[..m], p) {
      var i :| Outstanding(iss, ops[..m], i, p);
      OutstandingStep(iss, ops, i, p);
    }
  }

  lemma DoQueue(s: Sender, op: Op, p: Packet)
    ensures p in Do(s, op).sendBuf <==> Sends(op, s.sndNxt, p) || (p in s.sendBuf && !Acknowledges(op, p))
  {
    match op
    case SendData(d) =>
    case SendControl(q) =>
    case AckArrives(a) =>
      UnackedMeaning(s.sendBuf, |s.sendBuf|, a, p);
      assert s.sendBuf[..|s.sendBuf|] == s.sendBuf;
  }

  lemma DoNumber(s: Sender, op: Op, n: nat)
    requires s.sndNxt == n % SEQ_MOD
    ensures Do(s, op).sndNxt == (n + SeqUse(op)) % SEQ_MOD
  {
    var q := n / SEQ_MOD;
    assert n + SeqUse(op) == q * SEQ_MOD + (s.sndNxt + SeqUse(op));
  }

  /** In every run of sends and arbitrary acknowledgements, sequence numbers wrapping or not, the queue
      holds exactly the packets sent, each under the number due at the time, that no later
      acknowledgement has reached. */
  lemma {:induction false} QueueIsSentUnacked(iss: nat, wnd: nat, ops: seq<Op>, p: Packet)
    requires iss < SEQ_MOD
    ensures DoAll(Sender(iss, wnd, []), ops).sndNxt == NumberAfter(iss, ops)
    ensures p in DoAll(Sender(iss, wnd, []), ops).sendBuf <==> SentUnacked(iss, ops, p)
  {
    if ops != [] {
      var m := |ops| - 1;
      var s := DoAll(Sender(iss, wnd, []), ops[..m]);
      QueueIsSentUnacked(iss, wnd, ops[..m], p);
      SentUnackedStep(iss, ops, p);
      DoQueue(s, ops[m], p);
      DoNumber(s, ops[m], iss + Consumed(ops[..m]));
    }
  }

  // ----- the socket -----

  class SendSock {
    var sndNxt: nat
    var sndWnd: nat
    var sendBuf: seq<Packet>

    ghost function State(): Sender
      reads this
    {
      Sender(sndNxt, sndWnd, sendBuf)
    }

    /** The fields fit their types, u32 and u16. */
    ghost predicate Valid()
      reads this
    {
      sndNxt < SEQ_MOD && sndWnd < WND_MOD
    }

    constructor (iss: nat, wnd: nat)
      requires iss < SEQ_MOD && wnd < WND_MOD
      ensures Valid() && State() == Sender(iss, wnd, [])
    {
      sndNxt, sndWnd, sendBuf := iss, wnd, [];
    }

    method SendPacket(data: seq<byte>) returns (p: Segment)
      requires Valid()
      modifies this
      ensures Valid() && State() == SentData(old(State()), data)
      ensures p == Segment(old(sndNxt), data)
    {
      p := Segment(sndNxt, data);
      sendBuf := sendBuf + [Data(sndNxt, data)];
      sndNxt := (sndNxt + |data|) % SEQ_MOD;
      sndWnd := (sndWnd - |data|) % WND_MOD;
    }

    method SendControlPacket(synOrFin: bool) returns (seqNum: nat)
      requires Valid()
      modifies this
      ensures Valid() && State() == SentControl(old(State()), synOrFin)
      ensures seqNum == old(sndNxt)
    {
      seqNum := sndNxt;
      if synOrFin {
        sendBuf := sendBuf + [Control(sndNxt)];
        sndNxt := (sndNxt + 1) % SEQ_MOD;
      }
    }

    method RemoveAckData(ack: nat)
      requires Valid()
      modifies this
      ensures Valid() && State() == Acked(old(State()), ack)
    {
      var list, kept := sendBuf, [];
      ghost var wnd0 := sndWnd;
      for k := 0 to |list|
        invariant Valid() && sendBuf == list && sndNxt == old(sndNxt)
        invariant kept == Unacked(list, k, ack)
        invariant sndWnd == (wnd0 + Freed(list, k, ack)) % WND_MOD
      {
        if ack >= list[k].seqNum {
          ModShift(wnd0 + Freed(list, k, ack), PayloadLen(list[k]));
          sndWnd := (sndWnd + PayloadLen(list[k])) % WND_MOD;
        } else {
          kept := kept + [list[k]];
        }
      }
      sendBuf := kept;
    }
  }
}
