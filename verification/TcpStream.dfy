/** What the receiver delivers when its segments are cut from one byte stream, under any loss,
    duplication or reordering. */
module TcpStream {
  import opened TcpRing
  import opened TcpReceive

  // ----- arbitrary segmentation -----

  /** `s` is a non-empty piece of `stream`, whose first byte has sequence number `base`. */
  ghost predicate Cut(s: Segment, base: nat, stream: seq<byte>) {
    && |s.data| > 0 && base <= s.seqNum && s.seqNum + |s.data| <= base + |stream|
    && s.data == stream[s.seqNum - base..s.seqNum - base + |s.data|]
  }

  ghost predicate AllCut(ofo: seq<Segment>, base: nat, stream: seq<byte>) {
    forall i :: 0 <= i < |ofo| ==> Cut(ofo[i], base, stream)
  }

  /** Sequence numbers of the stream do not wrap. */
  ghost predicate NoWrap(base: nat, stream: seq<byte>) {
    base + |stream| < SEQ_MOD
  }

  /** The receiver together with what the application has read from it. */
  datatype App = App(rcv: Receiver, got: seq<byte>)

  datatype Event = Arrival(s: Segment) | AppReads(n: nat)

  ghost function Next(a: App, e: Event): App {
    match e
    case Arrival(s) => a.(rcv := Arrived(a.rcv, s))
    case AppReads(n) =>
      var len := if n <= |a.rcv.queue| then n else |a.rcv.queue|;
      App(a.rcv.(queue := a.rcv.queue[len..]), a.got + a.rcv.queue[..len])
  }

  ghost function After(a: App, es: seq<Event>): App {
    if es == [] then a else Next(After(a, es[..|es| - 1]), es[|es| - 1])
  }

  /** Bytes read, followed by bytes waiting, are the stream up to the next expected byte. */
  ghost predicate InStep(a: App, base: nat, stream: seq<byte>) {
    && base <= a.rcv.nxt <= base + |stream|
    && a.got + a.rcv.queue == stream[..a.rcv.nxt - base]
    && AllCut(a.rcv.ofo, base, stream)
  }

  lemma SliceJoin(stream: seq<byte>, a: nat, b: nat)
    requires a <= b <= |stream|
    ensures stream[..a] + stream[a..b] == stream[..b]
  {
  }

  lemma {:induction false} SweepInStep(ofo: seq<Segment>, k: nat, nxt: nat, base: nat, stream: seq<byte>)
    requires k <= |ofo| && AllCut(ofo, base, stream) && NoWrap(base, stream)
    requires base <= nxt <= base + |stream|
    ensures var r := SweepTo(ofo, k, nxt);
            && nxt <= r.nxt <= base + |stream| && AllCut(r.kept, base, stream)
            && stream[..nxt - base] + r.bytes == stream[..r.nxt - base]
  {
    if k > 0 {
      SweepInStep(ofo, k - 1, nxt, base, stream);
      var r, t := SweepTo(ofo, k - 1, nxt), ofo[k - 1];
      if t.seqNum == r.nxt {
        PlainEnd(t);
        Assoc(stream[..nxt - base], r.bytes, t.data);
        SliceJoin(stream, t.seqNum - base, t.seqNum - base + |t.data|);
      }
    }
  }

  lemma {:induction false} DrainInStep(ofo: seq<Segment>, nxt: nat, base: nat, stream: seq<byte>)
    requires AllCut(ofo, base, stream) && NoWrap(base, stream) && base <= nxt <= base + |stream|
    ensures var d := Drain(ofo, nxt);
            && nxt <= d.nxt <= base + |stream| && AllCut(d.kept, base, stream)
            && stream[..nxt - base] + d.bytes == stream[..d.nxt - base]
    decreases |ofo|
  {
    SweepInStep(ofo, |ofo|, nxt, base, stream);
    var r := SweepTo(ofo, |ofo|, nxt);
    if |r.kept| < |ofo| {
      DrainInStep(r.kept, r.nxt, base, stream);
      Assoc(stream[..nxt - base], r.bytes, Drain(r.kept, r.nxt).bytes);
    }
  }

  lemma JoinAll(a: seq<byte>, b: seq<byte>, c: seq<byte>, d: seq<byte>)
    ensures a + (b + c + d) == a + b + c + d
  {
  }

  /** The stream up to the next expected byte, then a segment due, then what the drain delivers. */
  lemma DueInStep(a: App, s: Segment, base: nat, stream: seq<byte>, d: Sweep)
    requires InStep(a, base, stream) && Cut(s, base, stream) && NoWrap(base, stream)
    requires s.seqNum == a.rcv.nxt && d == Drain(a.rcv.ofo, SeqEnd(s))
    ensures a.rcv.nxt <= d.nxt <= base + |stream| && AllCut(d.kept, base, stream)
    ensures a.got + (a.rcv.queue + s.data + d.bytes) == stream[..d.nxt - base]
  {
    PlainEnd(s);
    var end := SeqEnd(s);
    DrainInStep(a.rcv.ofo, end, base, stream);
    var before, upTo := a.got + a.rcv.queue, stream[..end - base];
    assert before + s.data == upTo by { SliceJoin(stream, s.seqNum - base, end - base); }
    assert upTo + d.bytes == stream[..d.nxt - base];
    JoinAll(a.got, a.rcv.queue, s.data, d.bytes);
  }

  lemma ArrivalInStep(a: App, s: Segment, base: nat, stream: seq<byte>)
    requires InStep(a, base, stream) && Cut(s, base, stream) && NoWrap(base, stream)
    ensures InStep(a.(rcv := Arrived(a.rcv, s)), base, stream)
    ensures a.rcv.nxt <= Arrived(a.rcv, s).nxt
  {
    if s.seqNum == a.rcv.nxt {
      DueInStep(a, s, base, stream, Drain(a.rcv.ofo, SeqEnd(s)));
    }
  }

  lemma ReadInStep(a: App, n: nat, base: nat, stream: seq<byte>)
    requires InStep(a, base, stream)
    ensures InStep(Next(a, AppReads(n)), base, stream)
  {
    var len := if n <= |a.rcv.queue| then n else |a.rcv.queue|;
    assert a.got + a.rcv.queue[..len] + a.rcv.queue[len..] == a.got + a.rcv.queue;
  }

  /** In every run, what the application has read followed by what waits in the ring is exactly the
      stream up to `rcv_nxt`, however the stream was cut and whatever the network did to the pieces. */
  lemma {:induction false} EveryRunInStep(base: nat, stream: seq<byte>, es: seq<Event>)
    requires NoWrap(base, stream)
    requires forall i :: 0 <= i < |es| && es[i].Arrival? ==> Cut(es[i].s, base, stream)
    ensures InStep(After(App(Receiver(base, [], []), []), es), base, stream)
  {
    if es == [] {
      assert [] + [] == stream[..0];
    } else {
      var m := |es| - 1;
      EveryRunInStep(base, stream, es[..m]);
      var a := After(App(Receiver(base, [], []), []), es[..m]);
      match es[m]
      case Arrival(s) => ArrivalInStep(a, s, base, stream);
      case AppReads(n) => ReadInStep(a, n, base, stream);
    }
  }

  /** After any run a read brings the application as far along the stream as it asked for, or to the next
      expected byte if that comes first. */
  lemma ReadAdvances(base: nat, stream: seq<byte>, es: seq<Event>, n: nat)
    requires NoWrap(base, stream)
    requires forall i :: 0 <= i < |es| && es[i].Arrival? ==> Cut(es[i].s, base, stream)
    ensures var a := After(App(Receiver(base, [], []), []), es);
            var end := if |a.got| + n <= a.rcv.nxt - base then |a.got| + n else a.rcv.nxt - base;
            0 <= end <= |stream| && Next(a, AppReads(n)).got == stream[..end]
  {
    EveryRunInStep(base, stream, es);
    var a := After(App(Receiver(base, [], []), []), es);
    ReadInStep(a, n, base, stream);
    var b := Next(a, AppReads(n));
    assert b.got == (b.got + b.rcv.queue)[..|b.got|];
    assert |a.got + a.rcv.queue| == a.rcv.nxt - base;
  }

  // ----- fixed segment boundaries -----

  /** The bytes of the first `k` segments sent. */
  ghost function Flat(sent: seq<seq<byte>>, k: nat): seq<byte>
    requires k <= |sent|
  {
    if k == 0 then [] else Flat(sent, k - 1) + sent[k - 1]
  }

  ghost function Bound(base: nat, sent: seq<seq<byte>>, k: nat): nat
    requires k <= |sent|
  {
    base + |Flat(sent, k)|
  }

  /** The k-th segment sent. */
  ghost function Piece(base: nat, sent: seq<seq<byte>>, k: nat): Segment
    requires k < |sent|
  {
    Segment(Bound(base, sent, k), sent[k])
  }

  ghost predicate Payloads(sent: seq<seq<byte>>) {
    forall k :: 0 <= k < |sent| ==> |sent[k]| > 0
  }

  lemma {:induction false} FlatGrows(sent: seq<seq<byte>>, j: nat, k: nat)
    requires j <= k <= |sent| && Payloads(sent)
    ensures Flat(sent, j) <= Flat(sent, k)
    ensures j < k ==> |Flat(sent, j)| < |Flat(sent, k)|
    decreases k
  {
    if j < k { FlatGrows(sent, j, k - 1); }
  }

  /** Segments are told apart by where they start. */
  lemma BoundsDiffer(base: nat, sent: seq<seq<byte>>, j: nat, k: nat)
    requires j <= |sent| && k <= |sent| && Payloads(sent)
    ensures Bound(base, sent, j) == Bound(base, sent, k) <==> j == k
    ensures Bound(base, sent, j) < Bound(base, sent, k) <==> j < k
  {
    if j <= k { FlatGrows(sent, j, k); } else { FlatGrows(sent, k, j); }
  }

  lemma PieceIsCut(base: nat, sent: seq<seq<byte>>, k: nat)
    requires k < |sent| && Payloads(sent)
    ensures Cut(Piece(base, sent, k), base, Flat(sent, |sent|))
    ensures Bound(base, sent, k) + |sent[k]| == Bound(base, sent, k + 1)
  {
    FlatGrows(sent, k + 1, |sent|);
  }

  /** `s` is one of the segments in `which`. */
  ghost predicate IsPiece(base: nat, sent: seq<seq<byte>>, which: set<nat>, s: Segment) {
    exists k :: k in which && k < |sent| && s == Piece(base, sent, k)
  }

  ghost predicate ArePieces(base: nat, sent: seq<seq<byte>>, which: set<nat>, ofo: seq<Segment>) {
    forall i :: 0 <= i < |ofo| ==> IsPiece(base, sent, which, ofo[i])
  }

  /** Everything below `m` has arrived. */
  ghost predicate NoGap(which: set<nat>, m: nat) {
    forall k: nat :: k < m ==> k in which
  }

  /** A segment that starts at a boundary is the one sent there, and ends at the next boundary. */
  lemma PieceDue(base: nat, sent: seq<seq<byte>>, which: set<nat>, t: Segment, m: nat)
    requires m <= |sent| && Payloads(sent) && Bound(base, sent, |sent|) < SEQ_MOD
    requires IsPiece(base, sent, which, t) && t.seqNum == Bound(base, sent, m)
    ensures m < |sent| && m in which && SeqEnd(t) == Bound(base, sent, m + 1) > t.seqNum
  {
    var k :| k in which && k < |sent| && t == Piece(base, sent, k);
    BoundsDiffer(base, sent, k, m);
    PieceEnds(base, sent, k);
  }

  lemma PieceEnds(base: nat, sent: seq<seq<byte>>, k: nat)
    requires k < |sent| && Payloads(sent) && Bound(base, sent, |sent|) < SEQ_MOD
    ensures SeqEnd(Piece(base, sent, k)) == Bound(base, sent, k + 1) > Bound(base, sent, k)
  {
    PieceIsCut(base, sent, k);
    BoundsDiffer(base, sent, k + 1, |sent|);
    PlainEnd(Piece(base, sent, k));
  }

  /** Below the modulus a segment ends where its length says. */
  lemma PlainEnd(s: Segment)
    requires s.seqNum + |s.data| < SEQ_MOD
    ensures SeqEnd(s) == s.seqNum + |s.data|
  {
  }

  /** One sweep moves from one boundary to a later one over segments that have arrived, and keeps
      every entry that is still ahead. */
  lemma {:induction false} SweepPieces(base: nat, sent: seq<seq<byte>>, which: set<nat>, ofo: seq<Segment>, j: nat, m: nat)
    returns (m': nat)
    requires j <= |ofo| && m <= |sent| && Payloads(sent) && Bound(base, sent, |sent|) < SEQ_MOD
    requires ArePieces(base, sent, which, ofo) && NoGap(which, m)
    ensures m <= m' <= |sent| && NoGap(which, m')
    ensures var r := SweepTo(ofo, j, Bound(base, sent, m));
            && r.nxt == Bound(base, sent, m') && ArePieces(base, sent, which, r.kept)
            && forall i :: 0 <= i < j && r.nxt <= ofo[i].seqNum ==> ofo[i] in r.kept
  {
    if j == 0 {
      m' := m;
    } else {
      m' := SweepPieces(base, sent, which, ofo, j - 1, m);
      var r, t := SweepTo(ofo, j - 1, Bound(base, sent, m)), ofo[j - 1];
      if t.seqNum == r.nxt {
        PieceDue(base, sent, which, t, m');
        m' := m' + 1;
      }
    }
  }

  /** Draining stops at a boundary with no buffered segment starting there. */
  lemma {:induction false} DrainPieces(base: nat, sent: seq<seq<byte>>, which: set<nat>, ofo: seq<Segment>, m: nat)
    returns (m': nat)
    requires m <= |sent| && Payloads(sent) && Bound(base, sent, |sent|) < SEQ_MOD
    requires ArePieces(base, sent, which, ofo) && NoGap(which, m)
    ensures m <= m' <= |sent| && NoGap(which, m')
    ensures var d := Drain(ofo, Bound(base, sent, m));
            && d.nxt == Bound(base, sent, m') && ArePieces(base, sent, which, d.kept)
            && (forall s :: s in ofo && d.nxt <= s.seqNum ==> s in d.kept)
            && (forall s :: s in d.kept ==> s.seqNum != d.nxt)
    decreases |ofo|
  {
    var r := SweepTo(ofo, |ofo|, Bound(base, sent, m));
    m' := SweepPieces(base, sent, which, ofo, |ofo|, m);
    if |r.kept| < |ofo| {
      var m1 := m';
      m' := DrainPieces(base, sent, which, r.kept, m1);
      BoundsDiffer(base, sent, m1, m');
    } else {
      IdleSweep(ofo, |ofo|, Bound(base, sent, m));
      IdleMeansNoneDue(ofo, |ofo|, Bound(base, sent, m));
      assert ofo[..|ofo|] == ofo;
    }
  }

  lemma {:induction false} IdleMeansNoneDue(ofo: seq<Segment>, k: nat, nxt: nat)
    requires k <= |ofo| && |SweepTo(ofo, k, nxt).kept| == k
    ensures forall i :: 0 <= i < k ==> ofo[i].seqNum != nxt
  {
    if k > 0 {
      IdleMeansNoneDue(ofo, k - 1, nxt);
      IdleSweep(ofo, k - 1, nxt);
    }
  }

  /** The receiver stands at the first segment that has not arrived, with all later arrivals buffered. */
  ghost predicate AtFirstGap(r: Receiver, base: nat, sent: seq<seq<byte>>, which: set<nat>, m: nat) {
    && m <= |sent| && r.nxt == Bound(base, sent, m)
    && NoGap(which, m) && m !in which
    && ArePieces(base, sent, which, r.ofo)
    && (forall k :: k in which ==> k < |sent|)
    && (forall k :: k in which && m <= k ==> Piece(base, sent, k) in r.ofo)
  }

  lemma MorePieces(base: nat, sent: seq<seq<byte>>, which: set<nat>, k: nat, ofo: seq<Segment>)
    requires ArePieces(base, sent, which, ofo)
    ensures ArePieces(base, sent, which + {k}, ofo)
  {
    forall i | 0 <= i < |ofo| ensures IsPiece(base, sent, which + {k}, ofo[i]) {
      assert IsPiece(base, sent, which, ofo[i]);
    }
  }

  /** The segment at the gap arrives. */
  lemma GapCloses(r: Receiver, base: nat, sent: seq<seq<byte>>, which: set<nat>, m: nat) returns (m': nat)
    requires AtFirstGap(r, base, sent, which, m) && m < |sent| && Payloads(sent)
    requires Bound(base, sent, |sent|) < SEQ_MOD
    ensures AtFirstGap(Arrived(r, Piece(base, sent, m)), base, sent, which + {m}, m')
  {
    var s, all := Piece(base, sent, m), which + {m};
    assert IsPiece(base, sent, all, s);
    PieceDue(base, sent, all, s, m);
    MorePieces(base, sent, which, m, r.ofo);
    m' := DrainPieces(base, sent, all, r.ofo, m + 1);
    BoundsDiffer(base, sent, m + 1, |sent|);
    StillBuffered(r, base, sent, which, m, m');
  }

  /** A segment beyond the gap arrives. */
  lemma GapStays(r: Receiver, base: nat, sent: seq<seq<byte>>, which: set<nat>, m: nat, k: nat)
    requires AtFirstGap(r, base, sent, which, m) && m < k < |sent| && Payloads(sent)
    ensures AtFirstGap(Arrived(r, Piece(base, sent, k)), base, sent, which + {k}, m)
  {
    BoundsDiffer(base, sent, k, m);
    MorePieces(base, sent, which, k, r.ofo);
    assert IsPiece(base, sent, which + {k}, Piece(base, sent, k));
  }

  /** An arrival moves the receiver to the first gap of what has arrived now. */
  lemma ArrivalAtGap(r: Receiver, base: nat, sent: seq<seq<byte>>, which: set<nat>, m: nat, k: nat)
    returns (m': nat)
    requires AtFirstGap(r, base, sent, which, m) && k < |sent| && Payloads(sent)
    requires Bound(base, sent, |sent|) < SEQ_MOD
    ensures AtFirstGap(Arrived(r, Piece(base, sent, k)), base, sent, which + {k}, m')
  {
    m' := m;
    if k == m {
      m' := GapCloses(r, base, sent, which, m);
    } else if m < k {
      GapStays(r, base, sent, which, m, k);
    } else {
      BoundsDiffer(base, sent, k, m);
      assert which + {k} == which;
    }
  }

  /** After the drain, arrivals beyond the new position are among the entries kept. */
  lemma StillBuffered(r: Receiver, base: nat, sent: seq<seq<byte>>, which: set<nat>, m: nat, m': nat)
    requires AtFirstGap(r, base, sent, which, m) && Payloads(sent) && m < m' <= |sent|
    requires Bound(base, sent, m + 1) < SEQ_MOD
    requires var d := Drain(r.ofo, Bound(base, sent, m + 1));
             && d.nxt == Bound(base, sent, m')
             && (forall s :: s in r.ofo && d.nxt <= s.seqNum ==> s in d.kept)
             && (forall s :: s in d.kept ==> s.seqNum != d.nxt)
    ensures m' !in which + {m}
    ensures forall j :: j in which + {m} && m' <= j ==> Piece(base, sent, j) in Drain(r.ofo, Bound(base, sent, m + 1)).kept
  {
    forall j | j in which && m' <= j
      ensures Piece(base, sent, j) in Drain(r.ofo, Bound(base, sent, m + 1)).kept && j != m'
    {
      BoundsDiffer(base, sent, m', j);
    }
  }

  /** More being sent does not disturb segments sent before. */
  lemma {:induction false} FlatExtends(sent: seq<seq<byte>>, data: seq<byte>, k: nat)
    requires k <= |sent|
    ensures Flat(sent + [data], k) == Flat(sent, k)
  {
    if k > 0 { FlatExtends(sent, data, k - 1); }
  }

  lemma GapExtends(r: Receiver, base: nat, sent: seq<seq<byte>>, which: set<nat>, m: nat, data: seq<byte>)
    requires AtFirstGap(r, base, sent, which, m)
    ensures AtFirstGap(r, base, sent + [data], which, m)
  {
    FlatExtends(sent, data, m);
    forall k | k in which ensures k < |sent| && Piece(base, sent + [data], k) == Piece(base, sent, k) {
      FlatExtends(sent, data, k);
    }
    forall i | 0 <= i < |r.ofo| ensures IsPiece(base, sent + [data], which, r.ofo[i]) {
      var k :| k in which && k < |sent| && r.ofo[i] == Piece(base, sent, k);
      assert r.ofo[i] == Piece(base, sent + [data], k);
    }
  }

  lemma CutExtends(s: Segment, base: nat, stream: seq<byte>, more: seq<byte>)
    requires Cut(s, base, stream)
    ensures Cut(s, base, stream + more)
  {
    assert (stream + more)[s.seqNum - base..s.seqNum - base + |s.data|] == stream[s.seqNum - base..s.seqNum - base + |s.data|];
  }

  lemma StepExtends(a: App, base: nat, stream: seq<byte>, more: seq<byte>)
    requires InStep(a, base, stream)
    ensures InStep(a, base, stream + more)
  {
    assert (stream + more)[..a.rcv.nxt - base] == stream[..a.rcv.nxt - base];
    forall i | 0 <= i < |a.rcv.ofo| ensures Cut(a.rcv.ofo[i], base, stream + more) {
      CutExtends(a.rcv.ofo[i], base, stream, more);
    }
  }

  /** Without fixed boundaries the amount delivered depends on the order of arrival: a segment that
      starts before `rcv_nxt` is dropped even if it reaches beyond it. */
  lemma OverlapsDependOnOrder()
    ensures var short, long := Segment(0, [7]), Segment(0, [7, 8]);
            var start := Receiver(0, [], []);
            && Arrived(Arrived(start, short), long).nxt == 1
            && Arrived(Arrived(start, long), short).nxt == 2
  {
    assert Drain([], 1) == Sweep(1, [], []) && Drain([], 2) == Sweep(2, [], []);
  }

  // ----- what is lost when segments overlap -----

  ghost predicate Covers(t: Segment, p: nat) {
    t.seqNum <= p < t.seqNum + |t.data|
  }

  /** The byte with sequence number `p` has arrived in one of the segments. */
  ghost predicate HasByte(seen: set<Segment>, p: nat) {
    exists t :: t in seen && Covers(t, p)
  }

  /** Every byte from `lo` up to `hi` has arrived. */
  ghost predicate HasBytes(seen: set<Segment>, lo: nat, hi: nat) {
    forall p: nat :: lo <= p < hi ==> HasByte(seen, p)
  }

  /** The segment starts before `p` and goes on beyond it. */
  ghost predicate Straddles(t: Segment, p: nat) {
    t.seqNum < p < t.seqNum + |t.data|
  }

  /** The segments that have arrived in a run. */
  ghost function Seen(es: seq<Event>): set<Segment> {
    if es == [] then {}
    else Seen(es[..|es| - 1]) + if es[|es| - 1].Arrival? then {es[|es| - 1].s} else {}
  }

  /** `kept` is what is left of buffered segments after a drain to `nxt`: nothing new, everything ahead. */
  ghost predicate KeepsAhead(ofo: seq<Segment>, kept: seq<Segment>, nxt: nat) {
    (forall t :: t in kept ==> t in ofo) && (forall t :: t in ofo && nxt <= t.seqNum ==> t in kept)
  }

  lemma MoreBytes(seen: set<Segment>, lo: nat, mid: nat, t: Segment)
    requires HasBytes(seen, lo, mid) && t in seen && t.seqNum == mid
    ensures HasBytes(seen, lo, mid + |t.data|)
  {
    forall p: nat | lo <= p < mid + |t.data| ensures HasByte(seen, p) {
      if p >= mid { assert Covers(t, p); }
    }
  }

  /** The next buffered segment is delivered, or kept. */
  lemma AheadStep(ofo: seq<Segment>, kept: seq<Segment>, nxt: nat, t: Segment)
    requires KeepsAhead(ofo, kept, nxt)
    ensures |t.data| > 0 && t.seqNum == nxt ==> KeepsAhead(ofo + [t], kept, nxt + |t.data|)
    ensures KeepsAhead(ofo + [t], kept + [t], nxt)
  {
  }

  lemma {:induction false} SweepKeepsAhead(ofo: seq<Segment>, k: nat, nxt: nat, base: nat, stream: seq<byte>)
    requires k <= |ofo| && AllCut(ofo, base, stream) && NoWrap(base, stream)
    ensures var r := SweepTo(ofo, k, nxt); KeepsAhead(ofo[..k], r.kept, r.nxt)
  {
    if k > 0 {
      SweepKeepsAhead(ofo, k - 1, nxt, base, stream);
      var r, t := SweepTo(ofo, k - 1, nxt), ofo[k - 1];
      assert ofo[..k] == ofo[..k - 1] + [t];
      AheadStep(ofo[..k - 1], r.kept, r.nxt, t);
      PlainEnd(t);
    }
  }

  lemma {:induction false} SweepCovers(ofo: seq<Segment>, k: nat, nxt: nat, base: nat, stream: seq<byte>, seen: set<Segment>)
    requires k <= |ofo| && AllCut(ofo, base, stream) && NoWrap(base, stream)
    requires forall t :: t in ofo ==> t in seen
    ensures HasBytes(seen, nxt, SweepTo(ofo, k, nxt).nxt)
  {
    if k > 0 {
      SweepCovers(ofo, k - 1, nxt, base, stream, seen);
      var r, t := SweepTo(ofo, k - 1, nxt), ofo[k - 1];
      if t.seqNum == r.nxt {
        PlainEnd(t);
        MoreBytes(seen, nxt, r.nxt, t);
      }
    }
  }

  lemma {:induction false} DrainCovers(ofo: seq<Segment>, nxt: nat, base: nat, stream: seq<byte>, seen: set<Segment>)
    requires AllCut(ofo, base, stream) && NoWrap(base, stream) && base <= nxt <= base + |stream|
    requires forall t :: t in ofo ==> t in seen
    ensures var d := Drain(ofo, nxt);
            && KeepsAhead(ofo, d.kept, d.nxt) && HasBytes(seen, nxt, d.nxt)
            && forall t :: t in d.kept ==> t.seqNum != d.nxt
    decreases |ofo|
  {
    assert ofo[..|ofo|] == ofo;
    SweepKeepsAhead(ofo, |ofo|, nxt, base, stream);
    SweepCovers(ofo, |ofo|, nxt, base, stream, seen);
    SweepInStep(ofo, |ofo|, nxt, base, stream);
    var r := SweepTo(ofo, |ofo|, nxt);
    if |r.kept| < |ofo| {
      DrainCovers(r.kept, r.nxt, base, stream, seen);
      DrainInStep(r.kept, r.nxt, base, stream);
    } else {
      IdleSweep(ofo, |ofo|, nxt);
      IdleMeansNoneDue(ofo, |ofo|, nxt);
    }
  }

  /** What holds between the receiver and the segments that have arrived: everything below `rcv_nxt` has,
      none of them starts there, and those that start beyond are buffered. */
  ghost predicate Settled(r: Receiver, base: nat, seen: set<Segment>) {
    && HasBytes(seen, base, r.nxt)
    && (forall t :: t in r.ofo ==> t in seen)
    && (forall t :: t in seen ==> t.seqNum != r.nxt && (r.nxt < t.seqNum ==> t in r.ofo))
  }

  lemma MoreSeen(seen: set<Segment>, s: Segment, lo: nat, hi: nat)
    requires HasBytes(seen, lo, hi)
    ensures HasBytes(seen + {s}, lo, hi)
  {
    forall p: nat | lo <= p < hi ensures HasByte(seen + {s}, p) {
      assert HasByte(seen, p);
      var t :| t in seen && Covers(t, p);
      assert t in seen + {s};
    }
  }

  lemma JoinBytes(seen: set<Segment>, lo: nat, mid: nat, hi: nat)
    requires HasBytes(seen, lo, mid) && HasBytes(seen, mid, hi)
    ensures HasBytes(seen, lo, hi)
  {
  }

  lemma DueArrivalSettles(a: App, s: Segment, base: nat, stream: seq<byte>, seen: set<Segment>)
    requires InStep(a, base, stream) && Cut(s, base, stream) && NoWrap(base, stream)
    requires Settled(a.rcv, base, seen) && s.seqNum == a.rcv.nxt
    ensures Settled(Arrived(a.rcv, s), base, seen + {s})
  {
    var all, end := seen + {s}, SeqEnd(s);
    PlainEnd(s);
    DrainCovers(a.rcv.ofo, end, base, stream, all);
    DrainInStep(a.rcv.ofo, end, base, stream);
    MoreSeen(seen, s, base, a.rcv.nxt);
    MoreBytes(all, base, a.rcv.nxt, s);
    JoinBytes(all, base, end, Drain(a.rcv.ofo, end).nxt);
  }

  lemma ArrivalSettles(a: App, s: Segment, base: nat, stream: seq<byte>, seen: set<Segment>)
    requires InStep(a, base, stream) && Cut(s, base, stream) && NoWrap(base, stream) && Settled(a.rcv, base, seen)
    ensures Settled(Arrived(a.rcv, s), base, seen + {s})
  {
    if s.seqNum == a.rcv.nxt {
      DueArrivalSettles(a, s, base, stream, seen);
    } else {
      MoreSeen(seen, s, base, a.rcv.nxt);
    }
  }

  lemma {:induction false} EveryRunSettled(base: nat, stream: seq<byte>, es: seq<Event>)
    requires NoWrap(base, stream)
    requires forall i :: 0 <= i < |es| && es[i].Arrival? ==> Cut(es[i].s, base, stream)
    ensures Settled(After(App(Receiver(base, [], []), []), es).rcv, base, Seen(es))
  {
    if es != [] {
      var m := |es| - 1;
      EveryRunSettled(base, stream, es[..m]);
      EveryRunInStep(base, stream, es[..m]);
      var a := After(App(Receiver(base, [], []), []), es[..m]);
      match es[m]
      case Arrival(s) => ArrivalSettles(a, s, base, stream, Seen(es[..m]));
      case AppReads(n) => assert Seen(es) == Seen(es[..m]);
    }
  }

  /** In every run, however the stream is cut, all bytes below `rcv_nxt` have arrived; the byte at
      `rcv_nxt` is really missing, so that no byte that could be delivered is withheld, exactly when no
      segment that has arrived lies across `rcv_nxt`. */
  lemma WhenNewBytesAreLost(base: nat, stream: seq<byte>, es: seq<Event>)
    requires NoWrap(base, stream)
    requires forall i :: 0 <= i < |es| && es[i].Arrival? ==> Cut(es[i].s, base, stream)
    ensures var nxt := After(App(Receiver(base, [], []), []), es).rcv.nxt;
            && HasBytes(Seen(es), base, nxt)
            && (!HasByte(Seen(es), nxt) <==> forall t :: t in Seen(es) ==> !Straddles(t, nxt))
  {
    EveryRunSettled(base, stream, es);
    var nxt := After(App(Receiver(base, [], []), []), es).rcv.nxt;
    forall t | t in Seen(es) ensures Covers(t, nxt) <==> Straddles(t, nxt) {
    }
  }

  /** A segment that is new from end to end when it arrives can still be lost: buffered first and then
      overtaken by one that ends inside it. */
  lemma OvertakenLosesBytes()
    ensures var ahead, due := Segment(1, [8, 9]), Segment(0, [7, 8]);
            Arrived(Arrived(Receiver(0, [], []), ahead), due) == Receiver(2, [7, 8], [ahead])
  {
    var ahead := Segment(1, [8, 9]);
    assert SweepTo([ahead], 0, 2) == Sweep(2, [], []);
    assert SweepTo([ahead], 1, 2) == Sweep(2, [], [ahead]);
    assert Drain([ahead], 2) == Sweep(2, [], [ahead]);
  }

  /** `s` is still buffered although the receiver has gone past its start. */
  ghost predicate Overtaken(ofo: seq<Segment>, nxt: nat, s: Segment) {
    s in ofo && s.seqNum < nxt
  }

  lemma {:induction false} SweepKeepsOvertaken(ofo: seq<Segment>, k: nat, nxt: nat, base: nat, stream: seq<byte>, s: Segment)
    requires k <= |ofo| && AllCut(ofo, base, stream) && NoWrap(base, stream)
    requires base <= nxt <= base + |stream| && Overtaken(ofo[..k], nxt, s)
    ensures s in SweepTo(ofo, k, nxt).kept
  {
    SweepInStep(ofo, k - 1, nxt, base, stream);
    if s in ofo[..k - 1] {
      SweepKeepsOvertaken(ofo, k - 1, nxt, base, stream, s);
    }
  }

  lemma {:induction false} DrainKeepsOvertaken(ofo: seq<Segment>, nxt: nat, base: nat, stream: seq<byte>, s: Segment)
    requires AllCut(ofo, base, stream) && NoWrap(base, stream)
    requires base <= nxt <= base + |stream| && Overtaken(ofo, nxt, s)
    ensures s in Drain(ofo, nxt).kept
    decreases |ofo|
  {
    assert ofo[..|ofo|] == ofo;
    SweepKeepsOvertaken(ofo, |ofo|, nxt, base, stream, s);
    SweepInStep(ofo, |ofo|, nxt, base, stream);
    var r := SweepTo(ofo, |ofo|, nxt);
    if |r.kept| < |ofo| {
      DrainKeepsOvertaken(r.kept, r.nxt, base, stream, s);
    }
  }

  lemma ArrivalKeepsOvertaken(a: App, t: Segment, base: nat, stream: seq<byte>, s: Segment)
    requires InStep(a, base, stream) && Cut(t, base, stream) && NoWrap(base, stream)
    requires Overtaken(a.rcv.ofo, a.rcv.nxt, s)
    ensures var r := Arrived(a.rcv, t); Overtaken(r.ofo, r.nxt, s)
  {
    ArrivalInStep(a, t, base, stream);
    if t.seqNum == a.rcv.nxt {
      PlainEnd(t);
      DrainKeepsOvertaken(a.rcv.ofo, SeqEnd(t), base, stream, s);
    }
  }

  /** A buffered segment that has been overtaken is never freed: it stays buffered in every run. */
  lemma {:induction false} OvertakenStays(a: App, es: seq<Event>, base: nat, stream: seq<byte>, s: Segment)
    requires InStep(a, base, stream) && NoWrap(base, stream) && Overtaken(a.rcv.ofo, a.rcv.nxt, s)
    requires forall i :: 0 <= i < |es| && es[i].Arrival? ==> Cut(es[i].s, base, stream)
    ensures var r := After(a, es); InStep(r, base, stream) && Overtaken(r.rcv.ofo, r.rcv.nxt, s)
  {
    if es != [] {
      var m := |es| - 1;
      OvertakenStays(a, es[..m], base, stream, s);
      var b := After(a, es[..m]);
      match es[m]
      case Arrival(t) =>
        ArrivalInStep(b, t, base, stream);
        ArrivalKeepsOvertaken(b, t, base, stream, s);
      case AppReads(n) => ReadInStep(b, n, base, stream);
    }
  }

  // ----- what is buffered -----

  /** Event `i` of the run brings `t` while the receiver is still before it. */
  ghost predicate ArrivedAhead(base: nat, es: seq<Event>, i: int, t: Segment) {
    0 <= i < |es| && es[i] == Arrival(t) && After(App(Receiver(base, [], []), []), es[..i]).rcv.nxt < t.seqNum
  }

  lemma AheadInLongerRun(base: nat, es: seq<Event>, i: nat, t: Segment)
    requires es != [] && ArrivedAhead(base, es[..|es| - 1], i, t)
    ensures ArrivedAhead(base, es, i, t)
  {
    assert es[..|es| - 1][..i] == es[..i];
  }

  lemma {:induction false} SweepKeepsOnly(ofo: seq<Segment>, k: nat, nxt: nat, t: Segment)
    requires k <= |ofo| && t in SweepTo(ofo, k, nxt).kept
    ensures t in ofo
  {
    if k > 0 && t in SweepTo(ofo, k - 1, nxt).kept { SweepKeepsOnly(ofo, k - 1, nxt, t); }
  }

  lemma {:induction false} DrainKeepsOnly(ofo: seq<Segment>, nxt: nat, t: Segment)
    requires t in Drain(ofo, nxt).kept
    ensures t in ofo
    decreases |ofo|
  {
    var r := SweepTo(ofo, |ofo|, nxt);
    if |r.kept| < |ofo| { DrainKeepsOnly(r.kept, r.nxt, t); }
    SweepKeepsOnly(ofo, |ofo|, nxt, t);
  }

  /** In every run, nothing is buffered but segments the receiver had not reached when they arrived: what
      comes late, a repetition or not, takes no memory. */
  lemma {:induction false} OnlyAheadBuffered(base: nat, es: seq<Event>, t: Segment) returns (i: nat)
    requires t in After(App(Receiver(base, [], []), []), es).rcv.ofo
    ensures ArrivedAhead(base, es, i, t)
  {
    var m := |es| - 1;
    var r := After(App(Receiver(base, [], []), []), es[..m]).rcv;
    if es[m].Arrival? && es[m].s == t && r.nxt < t.seqNum {
      i := m;
    } else {
      if es[m].Arrival? && es[m].s.seqNum == r.nxt { DrainKeepsOnly(r.ofo, SeqEnd(es[m].s), t); }
      i := OnlyAheadBuffered(base, es[..m], t);
      AheadInLongerRun(base, es, i, t);
    }
  }
}
