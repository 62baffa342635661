/** Sender, network and receiver together: from the bytes one application writes to the bytes the
    other reads. The network may lose, repeat and reorder; the sender may resend anything it sent. */
module TcpTransfer {
  import opened TcpRing
  import opened TcpReceive
  import opened TcpStream
  import opened TcpSend

  /** `sent` and `arrived` record the payloads sent and the indices of those that reached the peer. */
  datatype System = System(snd: Sender, sent: seq<seq<byte>>, app: App, arrived: set<nat>)

  datatype Action =
    | Write(data: seq<byte>)     // tcp_send_packet
    | Deliver(k: nat)            // any copy of the k-th segment, first or repeated
    | Read(n: nat)               // tcp_sock_read
    | Ack(ack: nat)              // remove_ack_data with any number at all

  ghost predicate Possible(y: System, x: Action) {
    match x
    case Write(d) => |d| > 0
    case Deliver(k) => k < |y.sent|
    case Read(_) => true
    case Ack(_) => true
  }

  ghost function Act(y: System, base: nat, x: Action): System
    requires Possible(y, x)
  {
    match x
    case Write(d) => y.(snd := SentData(y.snd, d), sent := y.sent + [d])
    case Deliver(k) =>
      y.(app := Next(y.app, Arrival(Piece(base, y.sent, k))), arrived := y.arrived + {k})
    case Read(n) => y.(app := Next(y.app, AppReads(n)))
    case Ack(a) => y.(snd := Acked(y.snd, a))
  }

  ghost function Start(base: nat, wnd: nat): System {
    System(Sender(base, wnd, []), [], App(Receiver(base, [], []), []), {})
  }

  /** Every packet waiting for acknowledgement, and so every retransmission, is a segment sent before. */
  ghost predicate QueueWasSent(y: System, base: nat) {
    forall p :: p in y.snd.sendBuf ==>
      p.Data? && exists k :: 0 <= k < |y.sent| && Segment(p.seqNum, p.payload) == Piece(base, y.sent, k)
  }

  /** What holds in every reachable state; `m` is the first segment that has not arrived. */
  ghost predicate Sound(y: System, base: nat, m: nat) {
    && Payloads(y.sent) && Bound(base, y.sent, |y.sent|) < SEQ_MOD
    && Contiguous(y.snd) && y.snd.sndNxt == Bound(base, y.sent, |y.sent|)
    && QueueWasSent(y, base)
    && InStep(y.app, base, Flat(y.sent, |y.sent|))
    && AtFirstGap(y.app.rcv, base, y.sent, y.arrived, m)
  }

  lemma WriteSound(y: System, base: nat, m: nat, d: seq<byte>)
    requires Sound(y, base, m) && |d| > 0 && Bound(base, y.sent, |y.sent|) + |d| < SEQ_MOD
    ensures Sound(Act(y, base, Write(d)), base, m)
  {
    var sent' := y.sent + [d];
    FlatExtends(y.sent, d, |y.sent|);
    assert Flat(sent', |sent'|) == Flat(y.sent, |y.sent|) + d;
    GapExtends(y.app.rcv, base, y.sent, y.arrived, m, d);
    StepExtends(y.app, base, Flat(y.sent, |y.sent|), d);
    QueueKept(y.snd, SendData(d));
    WriteQueue(y, base, d);
  }

  lemma WriteQueue(y: System, base: nat, d: seq<byte>)
    requires QueueWasSent(y, base) && y.snd.sndNxt == Bound(base, y.sent, |y.sent|) && |d| > 0
    ensures QueueWasSent(Act(y, base, Write(d)), base)
  {
    var y' := Act(y, base, Write(d));
    FlatExtends(y.sent, d, |y.sent|);
    forall p | p in y'.snd.sendBuf
      ensures p.Data? && exists k :: 0 <= k < |y'.sent| && Segment(p.seqNum, p.payload) == Piece(base, y'.sent, k)
    {
      if p in y.snd.sendBuf {
        var k :| 0 <= k < |y.sent| && Segment(p.seqNum, p.payload) == Piece(base, y.sent, k);
        FlatExtends(y.sent, d, k);
        assert Piece(base, y'.sent, k) == Piece(base, y.sent, k);
      } else {
        assert Segment(p.seqNum, p.payload) == Piece(base, y'.sent, |y.sent|);
      }
    }
  }

  lemma DeliverSound(y: System, base: nat, m: nat, k: nat) returns (m': nat)
    requires Sound(y, base, m) && k < |y.sent|
    ensures Sound(Act(y, base, Deliver(k)), base, m')
  {
    PieceIsCut(base, y.sent, k);
    ArrivalInStep(y.app, Piece(base, y.sent, k), base, Flat(y.sent, |y.sent|));
    m' := ArrivalAtGap(y.app.rcv, base, y.sent, y.arrived, m, k);
  }

  lemma ReadSound(y: System, base: nat, m: nat, n: nat)
    requires Sound(y, base, m)
    ensures Sound(Act(y, base, Read(n)), base, m)
  {
    ReadInStep(y.app, n, base, Flat(y.sent, |y.sent|));
  }

  lemma AckSound(y: System, base: nat, m: nat, a: nat)
    requires Sound(y, base, m)
    ensures Sound(Act(y, base, Ack(a)), base, m)
  {
    var c := AckCutsPrefix(y.snd, a);
  }

  ghost predicate IsRun(y: System, base: nat, xs: seq<Action>)
    decreases |xs|
  {
    xs == [] || (Possible(y, xs[0]) && IsRun(Act(y, base, xs[0]), base, xs[1..]))
  }

  ghost function Outcome(y: System, base: nat, xs: seq<Action>): System
    requires IsRun(y, base, xs)
    decreases |xs|
  {
    if xs == [] then y else Outcome(Act(y, base, xs[0]), base, xs[1..])
  }

  ghost function Written(xs: seq<Action>): nat {
    if xs == [] then 0 else WrittenBy(xs[0]) + Written(xs[1..])
  }

  /** What one action adds to what has been written. */
  ghost function WrittenBy(x: Action): nat {
    if x.Write? then |x.data| else 0
  }

  lemma ActSound(y: System, base: nat, m: nat, x: Action) returns (m': nat)
    requires Sound(y, base, m) && Possible(y, x) && Bound(base, y.sent, |y.sent|) + WrittenBy(x) < SEQ_MOD
    ensures var z := Act(y, base, x);
            Sound(z, base, m') && Bound(base, z.sent, |z.sent|) == Bound(base, y.sent, |y.sent|) + WrittenBy(x)
  {
    m' := m;
    match x {
      case Write(d) =>
        WriteSound(y, base, m, d);
        FlatExtends(y.sent, d, |y.sent|);
      case Deliver(k) => m' := DeliverSound(y, base, m, k);
      case Read(n) => ReadSound(y, base, m, n);
      case Ack(a) => AckSound(y, base, m, a);
    }
  }

  lemma {:induction false} RunSound(y: System, base: nat, m: nat, xs: seq<Action>) returns (m': nat)
    requires Sound(y, base, m) && IsRun(y, base, xs)
    requires Bound(base, y.sent, |y.sent|) + Written(xs) < SEQ_MOD
    ensures Sound(Outcome(y, base, xs), base, m')
    decreases |xs|
  {
    m' := m;
    if xs != [] {
      m' := ActSound(y, base, m, xs[0]);
      m' := RunSound(Act(y, base, xs[0]), base, m', xs[1..]);
    }
  }

  /** Exactly the segments before the first gap have been handed over: read by the application or
      waiting in the ring, in order and once each. */
  ghost predicate DeliversPrefix(y: System, base: nat, m: nat) {
    && m <= |y.sent| && NoGap(y.arrived, m) && m !in y.arrived
    && y.app.got + y.app.rcv.queue == Flat(y.sent, m)
    && y.app.rcv.nxt == base + |Flat(y.sent, m)|
  }

  lemma SoundDelivers(y: System, base: nat, m: nat)
    requires Sound(y, base, m)
    ensures DeliversPrefix(y, base, m)
    ensures y.app.got <= Flat(y.sent, |y.sent|)
  {
    FlatGrows(y.sent, m, |y.sent|);
    assert y.app.got <= y.app.got + y.app.rcv.queue;
  }

  /** End to end: in every run what the application has read is a prefix of what was written, and what
      is delivered is the longest gap-free prefix of what has arrived. */
  lemma EveryTransferInOrder(base: nat, wnd: nat, xs: seq<Action>) returns (m: nat)
    requires IsRun(Start(base, wnd), base, xs) && base + Written(xs) < SEQ_MOD
    ensures var y := Outcome(Start(base, wnd), base, xs);
            DeliversPrefix(y, base, m) && y.app.got <= Flat(y.sent, |y.sent|)
  {
    var y := Start(base, wnd);
    assert y.app.got + y.app.rcv.queue == Flat(y.sent, 0)[..0];
    assert Sound(y, base, 0);
    m := RunSound(y, base, 0, xs);
    SoundDelivers(Outcome(y, base, xs), base, m);
  }

  /** Once every segment has arrived at least once, nothing is missing and both ends agree. */
  lemma CompleteTransfer(y: System, base: nat, m: nat)
    requires Sound(y, base, m) && forall k: nat :: k < |y.sent| ==> k in y.arrived
    ensures y.app.got + y.app.rcv.queue == Flat(y.sent, |y.sent|)
    ensures y.app.rcv.nxt == y.snd.sndNxt
  {
    SoundDelivers(y, base, m);
    assert m == |y.sent|;
  }

  lemma RunStep(y: System, base: nat, x: Action, xs: seq<Action>)
    requires Possible(y, x) && IsRun(Act(y, base, x), base, xs)
    ensures IsRun(y, base, [x] + xs) && Outcome(y, base, [x] + xs) == Outcome(Act(y, base, x), base, xs)
  {
    assert ([x] + xs)[1..] == xs;
  }

  /** Retransmission does not make delivery certain: after two writes, one arrival and the receiver's
      own acknowledgement, the segment that was lost is no longer in the queue to be sent again. */
  lemma StrandedSegment(base: nat, wnd: nat, a: byte, b: byte)
    requires base + 2 < SEQ_MOD
    ensures var xs := [Write([a])] + ([Write([b])] + ([Deliver(0)] + ([Ack(base + 1)] + [])));
            && IsRun(Start(base, wnd), base, xs)
            && var y := Outcome(Start(base, wnd), base, xs);
               y.app.rcv.nxt == base + 1 && 1 !in y.arrived && |y.sent| == 2 && y.snd.sendBuf == []
  {
    var y1 := Act(Start(base, wnd), base, Write([a]));
    var y2 := Act(y1, base, Write([b]));
    var y3 := Act(y2, base, Deliver(0));
    var y4 := Act(y3, base, Ack(base + 1));
    assert y3.app.rcv.nxt == base + 1 by { assert Drain([], base + 1) == Sweep(base + 1, [], []); }
    assert y3.snd.sendBuf == [Data(base, [a]), Data(base + 1, [b])];
    assert Unacked(y3.snd.sendBuf, 1, base + 1) == [];
    RunStep(y3, base, Ack(base + 1), []);
    RunStep(y2, base, Deliver(0), [Ack(base + 1)] + []);
    RunStep(y1, base, Write([b]), [Deliver(0)] + ([Ack(base + 1)] + []));
    RunStep(Start(base, wnd), base, Write([a]), [Write([b])] + ([Deliver(0)] + ([Ack(base + 1)] + [])));
  }

  /** Everything that can still be sent again starts beyond `p`. */
  ghost predicate QueueBeyond(y: System, p: nat) {
    p < y.snd.sndNxt && forall q :: q in y.snd.sendBuf ==> p < q.seqNum
  }

  lemma ActBeyond(y: System, base: nat, x: Action, p: nat)
    requires QueueBeyond(y, p) && Possible(y, x) && (x.Write? ==> y.snd.sndNxt + |x.data| < SEQ_MOD)
    ensures QueueBeyond(Act(y, base, x), p)
  {
    if x.Ack? {
      var buf := y.snd.sendBuf;
      assert buf[..|buf|] == buf;
      forall q | q in Acked(y.snd, x.ack).sendBuf ensures p < q.seqNum {
        UnackedMeaning(buf, |buf|, x.ack, q);
      }
    }
  }

  lemma {:induction false} RunBeyond(y: System, base: nat, m: nat, xs: seq<Action>, p: nat)
    requires Sound(y, base, m) && IsRun(y, base, xs) && QueueBeyond(y, p)
    requires Bound(base, y.sent, |y.sent|) + Written(xs) < SEQ_MOD
    ensures QueueBeyond(Outcome(y, base, xs), p)
    decreases |xs|
  {
    if xs != [] {
      ActBeyond(y, base, xs[0], p);
      var m' := ActSound(y, base, m, xs[0]);
      RunBeyond(Act(y, base, xs[0]), base, m', xs[1..], p);
    }
  }

  /** Every honest acknowledgement short of the end strands the first missing segment: once the sender
      has handled the receiver's own `rcv_nxt`, no continuation has that segment in its queue again. */
  lemma HonestAckStrands(y: System, base: nat, m: nat, xs: seq<Action>)
    requires Sound(y, base, m) && m < |y.sent|
    requires IsRun(Act(y, base, Ack(y.app.rcv.nxt)), base, xs)
    requires Bound(base, y.sent, |y.sent|) + Written(xs) < SEQ_MOD
    ensures m !in y.arrived && Piece(base, y.sent, m).seqNum == y.app.rcv.nxt
    ensures var z := Outcome(Act(y, base, Ack(y.app.rcv.nxt)), base, xs);
            forall q :: q in z.snd.sendBuf ==> q.seqNum != Piece(base, y.sent, m).seqNum
  {
    var nxt, buf := y.app.rcv.nxt, y.snd.sendBuf;
    AckSound(y, base, m, nxt);
    BoundsDiffer(base, y.sent, m, |y.sent|);
    assert buf[..|buf|] == buf;
    forall q | q in Acked(y.snd, nxt).sendBuf ensures nxt < q.seqNum {
      UnackedMeaning(buf, |buf|, nxt, q);
    }
    RunBeyond(Act(y, base, Ack(nxt)), base, m, xs, nxt);
  }
}
