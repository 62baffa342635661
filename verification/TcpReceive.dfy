/** The data branch of `tcp_process`: in-order delivery, out-of-order buffering and the drain loop. */
module TcpReceive {
  import opened TcpRing

  const SEQ_MOD := 0x1_0000_0000

  datatype Segment = Segment(seqNum: nat, data: seq<byte>)

  function SeqEnd(s: Segment): nat {
    (s.seqNum + |s.data|) % SEQ_MOD
  }

  // ----- specification of the drain loop -----

  /** What one sweep over the buffered segments has delivered and kept so far. */
  datatype Sweep = Sweep(nxt: nat, bytes: seq<byte>, kept: seq<Segment>)

  /** The sweep after its first `k` entries. */
  ghost function SweepTo(ofo: seq<Segment>, k: nat, nxt: nat): (r: Sweep)
    requires k <= |ofo|
    ensures |r.kept| <= k
  {
    if k == 0 then Sweep(nxt, [], [])
    else
      var r, t := SweepTo(ofo, k - 1, nxt), ofo[k - 1];
      if t.seqNum == r.nxt then Sweep(SeqEnd(t), r.bytes + t.data, r.kept)
      else r.(kept := r.kept + [t])
  }

  /** Sweeps repeated until one finds nothing; each repetition is paid for by a removed entry. */
  ghost function Drain(ofo: seq<Segment>, nxt: nat): Sweep
    decreases |ofo|
  {
    var r := SweepTo(ofo, |ofo|, nxt);
    if |r.kept| == |ofo| then r
    else
      var d := Drain(r.kept, r.nxt);
      d.(bytes := r.bytes + d.bytes)
  }

  /** What is still to be drained: everything, or nothing after a sweep that found nothing. */
  ghost function Rest(found: bool, ofo: seq<Segment>, nxt: nat): Sweep {
    if found then Drain(ofo, nxt) else Sweep(nxt, [], ofo)
  }

  /** A sweep that keeps every entry has delivered nothing. */
  lemma {:induction false} IdleSweep(ofo: seq<Segment>, k: nat, nxt: nat)
    requires k <= |ofo| && |SweepTo(ofo, k, nxt).kept| == k
    ensures SweepTo(ofo, k, nxt) == Sweep(nxt, [], ofo[..k])
  {
    if k > 0 { IdleSweep(ofo, k - 1, nxt); }
  }

  lemma DrainStep(ofo: seq<Segment>, nxt: nat)
    ensures var r := SweepTo(ofo, |ofo|, nxt);
            var rest := Rest(|r.kept| < |ofo|, r.kept, r.nxt);
            Drain(ofo, nxt) == rest.(bytes := r.bytes + rest.bytes)
  {
    if |SweepTo(ofo, |ofo|, nxt).kept| == |ofo| { IdleSweep(ofo, |ofo|, nxt); }
  }

  /** The receiver: next expected sequence number, bytes not yet read, buffered segments. */
  datatype Receiver = Receiver(nxt: nat, queue: seq<byte>, ofo: seq<Segment>)

  /** What `tcp_process` does with a segment that carries data. */
  ghost function Arrived(r: Receiver, s: Segment): Receiver {
    if s.seqNum == r.nxt then
      var d := Drain(r.ofo, SeqEnd(s));
      Receiver(d.nxt, r.queue + s.data + d.bytes, d.kept)
    else if s.seqNum < r.nxt then r
    else r.(ofo := r.ofo + [s])
  }

  /** What a sweep has delivered only grows as it goes on. */
  lemma {:induction false} SweepGrows(ofo: seq<Segment>, j: nat, k: nat, nxt: nat)
    requires j <= k <= |ofo|
    ensures SweepTo(ofo, j, nxt).bytes <= SweepTo(ofo, k, nxt).bytes
    decreases k
  {
    if j < k { SweepGrows(ofo, j, k - 1, nxt); }
  }

  /** The next entry the sweep delivers is part of what the whole sweep delivers. */
  lemma SweepFits(ofo: seq<Segment>, k: nat, nxt: nat)
    requires k < |ofo| && ofo[k].seqNum == SweepTo(ofo, k, nxt).nxt
    ensures |SweepTo(ofo, k, nxt).bytes| + |ofo[k].data| <= |SweepTo(ofo, |ofo|, nxt).bytes|
  {
    SweepGrows(ofo, k + 1, |ofo|, nxt);
  }

  ghost predicate NonEmpty(ofo: seq<Segment>) {
    forall i :: 0 <= i < |ofo| ==> |ofo[i].data| > 0
  }

  lemma {:induction false} SweepNonEmpty(ofo: seq<Segment>, k: nat, nxt: nat)
    requires k <= |ofo| && NonEmpty(ofo)
    ensures NonEmpty(SweepTo(ofo, k, nxt).kept)
  {
    if k > 0 { SweepNonEmpty(ofo, k - 1, nxt); }
  }

  lemma Assoc(a: seq<byte>, b: seq<byte>, c: seq<byte>)
    ensures a + b + c == a + (b + c)
  {
  }

  // ----- the socket -----

  class TcpSock {
    const rcvBuf: RingBuffer
    var rcvNxt: nat
    var ofo: seq<Segment>

    ghost predicate Valid()
      reads this, rcvBuf
    {
      rcvBuf.Valid() && NonEmpty(ofo)
    }

    ghost function State(): Receiver
      requires Valid()
      reads this, rcvBuf, rcvBuf.buf
    {
      Receiver(rcvNxt, rcvBuf.Contents(), ofo)
    }

    constructor (nxt: nat, bufSize: nat)
      requires 0 < bufSize
      ensures Valid() && State() == Receiver(nxt, [], []) && rcvBuf.size == bufSize
      ensures fresh(rcvBuf) && fresh(rcvBuf.buf)
    {
      rcvBuf := new RingBuffer(bufSize);
      rcvNxt, ofo := nxt, [];
    }

    /** The write and the assertion that guards it. */
    method Deliver(s: Segment) returns (ok: bool)
      requires Valid() && |s.data| > 0
      modifies this`rcvNxt, rcvBuf`tail, rcvBuf.buf
      ensures ok <==> |old(rcvBuf.Contents())| + |s.data| < rcvBuf.size
      ensures ok ==> Valid() && rcvBuf.Contents() == old(rcvBuf.Contents()) + s.data && rcvNxt == SeqEnd(s)
    {
      ok := rcvBuf.Free() >= |s.data|;
      if ok {
        rcvBuf.Write(s.data);
        rcvNxt := (s.seqNum + |s.data|) % SEQ_MOD;
      }
    }

    /** One pass of the drain loop; false where the ring buffer's assertion fails. */
    method SweepOnce() returns (ok: bool, found: bool)
      requires Valid()
      modifies this`rcvNxt, this`ofo, rcvBuf`tail, rcvBuf.buf
      ensures ok <==> |old(rcvBuf.Contents())| + |SweepTo(old(ofo), |old(ofo)|, old(rcvNxt)).bytes| < rcvBuf.size
      ensures ok ==> Valid()
      ensures ok ==> var r := SweepTo(old(ofo), |old(ofo)|, old(rcvNxt));
                     && State() == Receiver(r.nxt, old(rcvBuf.Contents()) + r.bytes, r.kept)
                     && found == (|r.kept| < |old(ofo)|)
    {
      found := false;
      ghost var nxt0, queue0, sw := rcvNxt, rcvBuf.Contents(), SweepTo(ofo, 0, rcvNxt);
      var list, kept := ofo, [];
      for k := 0 to |list|
        invariant Valid() && ofo == list && sw == SweepTo(list, k, nxt0)
        invariant rcvNxt == sw.nxt && kept == sw.kept
        invariant rcvBuf.Contents() == queue0 + sw.bytes
        invariant found == (|kept| < k)
      {
        var t := list[k];
        if t.seqNum == rcvNxt {
          found := true;
          SweepFits(list, k, nxt0);
          ok := Deliver(t);
          if !ok {
            return;
          }
        } else {
          kept := kept + [t];
        }
        sw := SweepTo(list, k + 1, nxt0);
      }
      SweepNonEmpty(list, |list|, nxt0);
      ofo := kept;
      ok := true;
    }

    /** The drain loop: it ends because every repetition has removed a buffered segment. */
    method DrainAll() returns (ok: bool)
      requires Valid()
      modifies this`rcvNxt, this`ofo, rcvBuf`tail, rcvBuf.buf
      ensures ok <==> |old(rcvBuf.Contents())| + |Drain(old(ofo), old(rcvNxt)).bytes| < rcvBuf.size
      ensures ok ==> Valid()
      ensures ok ==> var d := Drain(old(ofo), old(rcvNxt));
                     State() == Receiver(d.nxt, old(rcvBuf.Contents()) + d.bytes, d.kept)
    {
      ghost var total := Drain(ofo, rcvNxt);
      ghost var queue0, done, rest := rcvBuf.Contents(), [], total;
      var found := true;
      while found
        invariant Valid() && rcvBuf.Contents() == queue0 + done
        invariant rest == Rest(found, ofo, rcvNxt)
        invariant total.nxt == rest.nxt && total.kept == rest.kept && total.bytes == done + rest.bytes
        decreases found, |ofo|
      {
        ghost var ofo0, nxt0, was, queue := ofo, rcvNxt, rest, rcvBuf.Contents();
        ghost var r := SweepTo(ofo0, |ofo0|, nxt0);
        DrainStep(ofo0, nxt0);
        ok, found := SweepOnce();
        if !ok {
          return;
        }
        rest := Rest(found, r.kept, r.nxt);
        assert was.bytes == r.bytes + rest.bytes && was.nxt == rest.nxt && was.kept == rest.kept;
        assert rcvBuf.Contents() == queue + r.bytes;
        Assoc(queue0, done, r.bytes);
        done := done + r.bytes;
      }
      ok := true;
    }

    /** A segment with data arrives; false exactly when what it makes deliverable does not fit. */
    method Arrive(s: Segment) returns (ok: bool)
      requires Valid() && |s.data| > 0
      modifies this`rcvNxt, this`ofo, rcvBuf`tail, rcvBuf.buf
      ensures ok <==> |Arrived(old(State()), s).queue| < rcvBuf.size
      ensures ok ==> Valid() && State() == Arrived(old(State()), s)
    {
      if s.seqNum == rcvNxt {
        ok := Deliver(s);
        if !ok {
          return;
        }
        ok := DrainAll();
      } else if s.seqNum < rcvNxt {
        ok := true;
      } else {
        ofo := ofo + [s];
        ok := true;
      }
    }

    /** `tcp_sock_read` once it is past waiting: the oldest bytes, and only those. */
    method Read(dst: array<byte>, n: nat) returns (len: nat)
      requires Valid() && dst != rcvBuf.buf && n <= dst.Length
      modifies rcvBuf`head, dst
      ensures Valid() && len <= n && len <= |old(State()).queue|
      ensures len < n ==> len == |old(State()).queue|
      ensures dst[..len] == old(State()).queue[..len]
      ensures State() == old(State()).(queue := old(State()).queue[len..])
    {
      len := rcvBuf.Read(dst, n);
    }
  }
}
