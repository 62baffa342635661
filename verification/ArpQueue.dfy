/** Packets waiting for an address resolution: the pending part of the ARP cache, with a ledger of
    every packet handed to it. */
module ArpQueue {

  const MAX_RETRIES := 5

  datatype Packet = Packet(bytes: seq<nat>)
  datatype Key = Key(iface: nat, ip4: nat)

  /** Packets waiting for the same address on the same interface. */
  datatype Req = Req(key: Key, sent: int, retries: nat, packets: seq<Packet>)

  datatype Fate = SentTo(mac: nat) | Unreachable

  /** A packet that has left the queue. */
  datatype Done = Done(key: Key, packet: Packet, fate: Fate)

  /** Pending requests, packets that have left, and ARP requests emitted. */
  datatype Queue = Queue(reqs: seq<Req>, log: seq<Done>, asked: seq<Key>)

  ghost predicate OnePerKey(reqs: seq<Req>) {
    forall i, j :: 0 <= i < j < |reqs| ==> reqs[i].key != reqs[j].key
  }

  ghost predicate Lacks(reqs: seq<Req>, k: Key) {
    forall i :: 0 <= i < |reqs| ==> reqs[i].key != k
  }

  // ----- operations -----

  ghost function FindKey(reqs: seq<Req>, from: nat, k: Key): (i: int)
    requires from <= |reqs|
    ensures i == -1 || (from <= i < |reqs| && reqs[i].key == k)
    ensures i == -1 <==> forall j :: from <= j < |reqs| ==> reqs[j].key != k
    decreases |reqs| - from
  {
    if from == |reqs| then -1 else if reqs[from].key == k then from else FindKey(reqs, from + 1, k)
  }

  ghost function FindIp(reqs: seq<Req>, from: nat, ip4: nat): (i: int)
    requires from <= |reqs|
    ensures i == -1 || (from <= i < |reqs| && reqs[i].key.ip4 == ip4)
    ensures i == -1 <==> forall j :: from <= j < |reqs| ==> reqs[j].key.ip4 != ip4
    decreases |reqs| - from
  {
    if from == |reqs| then -1 else if reqs[from].key.ip4 == ip4 then from else FindIp(reqs, from + 1, ip4)
  }

  /** `arpcache_append_packet`. */
  ghost function Appended(q: Queue, k: Key, p: Packet, now: int): Queue {
    var i := FindKey(q.reqs, 0, k);
    if i == -1 then q.(reqs := [Req(k, now, 1, [p])] + q.reqs, asked := q.asked + [k])
    else q.(reqs := q.reqs[i := q.reqs[i].(packets := q.reqs[i].packets + [p])])
  }

  function Leaving(r: Req, fate: Fate): seq<Done> {
    seq(|r.packets|, i requires 0 <= i < |r.packets| => Done(r.key, r.packets[i], fate))
  }

  /** The pending part of `arpcache_insert`: the first request for the address, and only that one. */
  ghost function Answered(q: Queue, ip4: nat, mac: nat): Queue {
    var i := FindIp(q.reqs, 0, ip4);
    if i == -1 then q
    else q.(reqs := q.reqs[..i] + q.reqs[i + 1..], log := q.log + Leaving(q.reqs[i], SentTo(mac)))
  }

  predicate Due(r: Req, now: int) {
    !(now - r.sent < 1)
  }

  /** What a sweep that has come as far as `s` does with the next request: leave it, ask again, or
      give up on it. */
  ghost function Judged(s: Queue, r: Req, now: int): Queue {
    if !Due(r, now) then s.(reqs := s.reqs + [r])
    else if r.retries < MAX_RETRIES then
      s.(reqs := s.reqs + [r.(retries := r.retries + 1)], asked := s.asked + [r.key])
    else s.(log := s.log + Leaving(r, Unreachable))
  }

  /** The sweep after the first `n` requests. */
  ghost function SweptTo(q: Queue, n: nat, now: int): (s: Queue)
    requires n <= |q.reqs|
    ensures |s.reqs| <= n
  {
    if n == 0 then q.(reqs := []) else Judged(SweptTo(q, n - 1, now), q.reqs[n - 1], now)
  }

  /** `arpcache_sweep`, pending part. */
  ghost function Swept(q: Queue, now: int): Queue {
    SweptTo(q, |q.reqs|, now)
  }

  // ----- the ledger -----

  /** Packets pending for a key, oldest first. */
  ghost function Pending(reqs: seq<Req>, k: Key): seq<Packet> {
    if reqs == [] then []
    else Pending(reqs[..|reqs| - 1], k) + if reqs[|reqs| - 1].key == k then reqs[|reqs| - 1].packets else []
  }

  /** Packets for a key that have left, in the order they left. */
  ghost function Left(log: seq<Done>, k: Key): seq<Packet> {
    if log == [] then []
    else Left(log[..|log| - 1], k) + if log[|log| - 1].key == k then [log[|log| - 1].packet] else []
  }

  /** Packets handed over for a key, in order. */
  ghost function Handed(given: seq<(Key, Packet)>, k: Key): seq<Packet> {
    if given == [] then []
    else Handed(given[..|given| - 1], k) + if given[|given| - 1].0 == k then [given[|given| - 1].1] else []
  }

  /** What was handed over for each key is what has left followed by what is pending. */
  ghost predicate Balanced(q: Queue, given: seq<(Key, Packet)>) {
    forall k :: Handed(given, k) == Left(q.log, k) + Pending(q.reqs, k)
  }

  lemma {:induction false} PendingConcat(a: seq<Req>, b: seq<Req>, k: Key)
    ensures Pending(a + b, k) == Pending(a, k) + Pending(b, k)
    decreases |b|
  {
    if b == [] {
      assert a + b == a;
    } else {
      PendingConcat(a, b[..|b| - 1], k);
      assert (a + b)[..|a + b| - 1] == a + b[..|b| - 1];
    }
  }

  lemma {:induction false} LeftConcat(a: seq<Done>, b: seq<Done>, k: Key)
    ensures Left(a + b, k) == Left(a, k) + Left(b, k)
    decreases |b|
  {
    if b == [] {
      assert a + b == a;
    } else {
      LeftConcat(a, b[..|b| - 1], k);
      assert (a + b)[..|a + b| - 1] == a + b[..|b| - 1];
    }
  }

  lemma {:induction false} LackingIsEmpty(reqs: seq<Req>, k: Key)
    requires Lacks(reqs, k)
    ensures Pending(reqs, k) == []
  {
    if reqs != [] { LackingIsEmpty(reqs[..|reqs| - 1], k); }
  }

  /** The packets of a request leave in order, under its key. */
  lemma {:induction false} LeavingIsPackets(r: Req, fate: Fate, n: nat, k: Key)
    requires n <= |r.packets|
    ensures Left(Leaving(r, fate)[..n], k) == if r.key == k then r.packets[..n] else []
  {
    if n > 0 {
      LeavingIsPackets(r, fate, n - 1, k);
      assert Leaving(r, fate)[..n][..n - 1] == Leaving(r, fate)[..n - 1];
      assert r.packets[..n] == r.packets[..n - 1] + [r.packets[n - 1]];
    }
  }

  lemma LogLeaving(log: seq<Done>, r: Req, fate: Fate, k: Key)
    ensures Left(log + Leaving(r, fate), k) == Left(log, k) + if r.key == k then r.packets else []
  {
    LeftConcat(log, Leaving(r, fate), k);
    AllLeave(r, fate, k);
  }

  lemma AllLeave(r: Req, fate: Fate, k: Key)
    ensures Left(Leaving(r, fate), k) == if r.key == k then r.packets else []
  {
    var n, out := |r.packets|, Leaving(r, fate);
    LeavingIsPackets(r, fate, n, k);
    assert out[..n] == out && r.packets[..n] == r.packets;
  }

  /** Where one request sits, only its own packets are pending under its key. */
  lemma PendingSplit(reqs: seq<Req>, i: nat, k: Key)
    requires i < |reqs| && OnePerKey(reqs)
    ensures Pending(reqs, k) ==
            Pending(reqs[..i], k) + (if reqs[i].key == k then reqs[i].packets else []) + Pending(reqs[i + 1..], k)
    ensures k == reqs[i].key ==> Pending(reqs[..i], k) == [] && Pending(reqs[i + 1..], k) == []
  {
    var head := reqs[..i + 1];
    assert head[..|head| - 1] == reqs[..i];
    assert reqs == head + reqs[i + 1..];
    PendingConcat(head, reqs[i + 1..], k);
    if k == reqs[i].key { OthersLack(reqs, i); }
  }

  lemma OthersLack(reqs: seq<Req>, i: nat)
    requires i < |reqs| && OnePerKey(reqs)
    ensures Pending(reqs[..i], reqs[i].key) == [] && Pending(reqs[i + 1..], reqs[i].key) == []
  {
    LackingIsEmpty(reqs[..i], reqs[i].key);
    LackingIsEmpty(reqs[i + 1..], reqs[i].key);
  }

  // ----- what every operation keeps -----

  /** What the queue accounts for under a key: packets that have left, then packets pending. */
  ghost function Account(q: Queue, k: Key): seq<Packet> {
    Left(q.log, k) + Pending(q.reqs, k)
  }

  lemma NewRequestAccount(q: Queue, k: Key, p: Packet, now: int, c: Key)
    requires Lacks(q.reqs, k)
    ensures Account(q.(reqs := [Req(k, now, 1, [p])] + q.reqs), c) == Account(q, c) + if c == k then [p] else []
  {
    var r := Req(k, now, 1, [p]);
    PendingConcat([r], q.reqs, c);
    assert [r][..0] == [];
    if c == k { LackingIsEmpty(q.reqs, k); }
  }

  lemma LongerRequestAccount(q: Queue, i: nat, p: Packet, c: Key)
    requires OnePerKey(q.reqs) && i < |q.reqs|
    ensures Account(q.(reqs := q.reqs[i := q.reqs[i].(packets := q.reqs[i].packets + [p])]), c) ==
            Account(q, c) + if c == q.reqs[i].key then [p] else []
  {
    var reqs' := q.reqs[i := q.reqs[i].(packets := q.reqs[i].packets + [p])];
    PendingSplit(q.reqs, i, c);
    PendingSplit(reqs', i, c);
    if c == q.reqs[i].key {
      assert Pending(q.reqs, c) == q.reqs[i].packets;
      assert Pending(reqs', c) == q.reqs[i].packets + [p];
    } else {
      assert reqs'[..i] == q.reqs[..i] && reqs'[i + 1..] == q.reqs[i + 1..];
      assert Pending(reqs', c) == Pending(q.reqs, c);
    }
  }

  lemma AppendBalanced(q: Queue, given: seq<(Key, Packet)>, k: Key, p: Packet, now: int)
    requires OnePerKey(q.reqs) && Balanced(q, given)
    ensures OnePerKey(Appended(q, k, p, now).reqs) && Balanced(Appended(q, k, p, now), given + [(k, p)])
  {
    var q', i := Appended(q, k, p, now), FindKey(q.reqs, 0, k);
    var given' := given + [(k, p)];
    assert given'[..|given'| - 1] == given;
    forall c ensures Handed(given', c) == Left(q'.log, c) + Pending(q'.reqs, c) {
      assert Handed(given, c) == Account(q, c);
      if i == -1 {
        NewRequestAccount(q, k, p, now, c);
      } else {
        LongerRequestAccount(q, i, p, c);
      }
      assert Account(q', c) == Account(q, c) + if c == k then [p] else [];
    }
  }

  /** Taking a request out and logging its packets changes no account. */
  lemma RemovalAccount(q: Queue, i: nat, fate: Fate, c: Key)
    requires OnePerKey(q.reqs) && i < |q.reqs|
    ensures Account(q.(reqs := q.reqs[..i] + q.reqs[i + 1..], log := q.log + Leaving(q.reqs[i], fate)), c) == Account(q, c)
  {
    PendingSplit(q.reqs, i, c);
    PendingConcat(q.reqs[..i], q.reqs[i + 1..], c);
    LogLeaving(q.log, q.reqs[i], fate, c);
  }

  lemma AnswerBalanced(q: Queue, given: seq<(Key, Packet)>, ip4: nat, mac: nat)
    requires OnePerKey(q.reqs) && Balanced(q, given)
    ensures OnePerKey(Answered(q, ip4, mac).reqs) && Balanced(Answered(q, ip4, mac), given)
  {
    var q', i := Answered(q, ip4, mac), FindIp(q.reqs, 0, ip4);
    if i != -1 {
      forall c ensures Handed(given, c) == Left(q'.log, c) + Pending(q'.reqs, c) {
        assert Handed(given, c) == Account(q, c);
        RemovalAccount(q, i, SentTo(mac), c);
        assert Account(q', c) == Account(q, c);
      }
    }
  }

  lemma LacksPrefix(reqs: seq<Req>, n: nat, k: Key)
    requires n <= |reqs| && Lacks(reqs, k)
    ensures Lacks(reqs[..n], k)
  {
  }

  /** A sweep invents no request. */
  lemma {:induction false} SweepKeys(q: Queue, n: nat, now: int)
    requires n <= |q.reqs| && OnePerKey(q.reqs)
    ensures var s := SweptTo(q, n, now);
            OnePerKey(s.reqs) && forall k :: Lacks(q.reqs[..n], k) ==> Lacks(s.reqs, k)
  {
    if n > 0 {
      SweepKeys(q, n - 1, now);
      var s, r := SweptTo(q, n - 1, now), q.reqs[n - 1];
      assert Lacks(q.reqs[..n - 1], r.key);
      assert Lacks(s.reqs, r.key);
      forall k | Lacks(q.reqs[..n], k) ensures Lacks(SweptTo(q, n, now).reqs, k) {
        assert q.reqs[..n][n - 1] == r;
        LacksPrefix(q.reqs[..n], n - 1, k);
        assert q.reqs[..n][..n - 1] == q.reqs[..n - 1];
      }
    }
  }

  ghost function PacketsFor(r: Req, k: Key): seq<Packet> {
    if r.key == k then r.packets else []
  }

  /** Keeping one more request adds its packets to its account. */
  lemma KeepAccount(q: Queue, r: Req, k: Key)
    ensures Account(q.(reqs := q.reqs + [r]), k) == Account(q, k) + PacketsFor(r, k)
  {
    assert (q.reqs + [r])[..|q.reqs + [r]| - 1] == q.reqs;
  }

  /** Logging the packets of a request nobody else holds the key of does the same. */
  lemma LogAccount(q: Queue, r: Req, fate: Fate, k: Key)
    requires Lacks(q.reqs, r.key)
    ensures Account(q.(log := q.log + Leaving(r, fate)), k) == Account(q, k) + PacketsFor(r, k)
  {
    LogLeaving(q.log, r, fate, k);
    if r.key == k { LackingIsEmpty(q.reqs, k); }
  }

  /** No request seen so far has the key of the next one. */
  lemma NextKeyIsNew(q: Queue, n: nat, now: int)
    requires n < |q.reqs| && OnePerKey(q.reqs)
    ensures Lacks(SweptTo(q, n, now).reqs, q.reqs[n].key)
  {
    SweepKeys(q, n, now);
    assert Lacks(q.reqs[..n], q.reqs[n].key);
  }

  lemma JudgeAccount(s: Queue, r: Req, now: int, k: Key)
    requires Lacks(s.reqs, r.key)
    ensures Account(Judged(s, r, now), k) == Account(s, k) + PacketsFor(r, k)
  {
    if !Due(r, now) {
      KeepAccount(s, r, k);
    } else if r.retries < MAX_RETRIES {
      KeepAccount(s, r.(retries := r.retries + 1), k);
    } else {
      LogAccount(s, r, Unreachable, k);
    }
  }

  lemma FirstRequestsAccount(q: Queue, n: nat, k: Key)
    requires n < |q.reqs|
    ensures Account(q.(reqs := q.reqs[..n + 1]), k) == Account(q.(reqs := q.reqs[..n]), k) + PacketsFor(q.reqs[n], k)
  {
    assert q.reqs[..n + 1] == q.reqs[..n] + [q.reqs[n]];
    KeepAccount(q.(reqs := q.reqs[..n]), q.reqs[n], k);
  }

  lemma SweptAccount(q: Queue, n: nat, now: int, k: Key)
    requires n < |q.reqs| && OnePerKey(q.reqs)
    ensures Account(SweptTo(q, n + 1, now), k) == Account(SweptTo(q, n, now), k) + PacketsFor(q.reqs[n], k)
  {
    NextKeyIsNew(q, n, now);
    JudgeAccount(SweptTo(q, n, now), q.reqs[n], now, k);
  }

  /** A sweep only moves packets: what it logs and keeps for a key is what was pending for it. */
  lemma {:induction false} SweepMoves(q: Queue, n: nat, now: int, k: Key)
    requires n <= |q.reqs| && OnePerKey(q.reqs)
    ensures Account(SweptTo(q, n, now), k) == Account(q.(reqs := q.reqs[..n]), k)
  {
    if n == 0 {
      assert q.reqs[..0] == [];
    } else {
      var a, b := Account(q.(reqs := q.reqs[..n - 1]), k), PacketsFor(q.reqs[n - 1], k);
      assert Account(SweptTo(q, n, now), k) == a + b by {
        SweepMoves(q, n - 1, now, k);
        SweptAccount(q, n - 1, now, k);
      }
      assert Account(q.(reqs := q.reqs[..n]), k) == a + b by {
        FirstRequestsAccount(q, n - 1, k);
      }
    }
  }

  lemma SweepBalanced(q: Queue, given: seq<(Key, Packet)>, now: int)
    requires OnePerKey(q.reqs) && Balanced(q, given)
    ensures OnePerKey(Swept(q, now).reqs) && Balanced(Swept(q, now), given)
  {
    SweepKeys(q, |q.reqs|, now);
    forall c ensures Handed(given, c) == Left(Swept(q, now).log, c) + Pending(Swept(q, now).reqs, c) {
      SweepMoves(q, |q.reqs|, now, c);
      assert q.reqs[..|q.reqs|] == q.reqs;
      assert Handed(given, c) == Account(q, c) == Account(Swept(q, now), c);
    }
  }

  // ----- runs -----

  datatype Op = Append(k: Key, p: Packet, now: int) | Answer(ip4: nat, mac: nat) | Sweep(now: int)

  ghost function Do(q: Queue, op: Op): Queue {
    match op
    case Append(k, p, now) => Appended(q, k, p, now)
    case Answer(ip4, mac) => Answered(q, ip4, mac)
    case Sweep(now) => Swept(q, now)
  }

  ghost function DoAll(q: Queue, ops: seq<Op>): Queue {
    if ops == [] then q else Do(DoAll(q, ops[..|ops| - 1]), ops[|ops| - 1])
  }

  ghost function Given(ops: seq<Op>): seq<(Key, Packet)> {
    if ops == [] then []
    else
      Given(ops[..|ops| - 1]) +
      if ops[|ops| - 1].Append? then [(ops[|ops| - 1].k, ops[|ops| - 1].p)] else []
  }

  /** In every run each packet handed over is in exactly one of pending, sent or reported unreachable,
      first in first out per request, and there is one request per interface and address. */
  lemma {:induction false} EveryRunBalanced(ops: seq<Op>)
    ensures OnePerKey(DoAll(Queue([], [], []), ops).reqs)
    ensures Balanced(DoAll(Queue([], [], []), ops), Given(ops))
  {
    if ops != [] {
      var m := |ops| - 1;
      EveryRunBalanced(ops[..m]);
      var q, given := DoAll(Queue([], [], []), ops[..m]), Given(ops[..m]);
      match ops[m]
      case Append(k, p, now) => AppendBalanced(q, given, k, p, now);
      case Answer(ip4, mac) =>
        AnswerBalanced(q, given, ip4, mac);
        assert Given(ops) == given;
      case Sweep(now) =>
        SweepBalanced(q, given, now);
        assert Given(ops) == given;
    }
  }

  // ----- what becomes of packets -----

  /** An answer sends packets for its own address, with its own hardware address, and nothing else. */
  lemma AnswerFate(q: Queue, ip4: nat, mac: nat, i: nat)
    requires |q.log| <= i < |Answered(q, ip4, mac).log|
    ensures var d := Answered(q, ip4, mac).log[i]; d.key.ip4 == ip4 && d.fate == SentTo(mac)
  {
  }

  /** A sweep gives up only on requests that are due and have used up their retries. */
  lemma {:induction false} SweepFate(q: Queue, n: nat, now: int, i: nat)
    requires n <= |q.reqs| && |q.log| <= i < |SweptTo(q, n, now).log|
    ensures q.log <= SweptTo(q, n, now).log
    ensures var d := SweptTo(q, n, now).log[i];
            d.fate == Unreachable &&
            exists j :: 0 <= j < n && q.reqs[j].key == d.key && Due(q.reqs[j], now) && q.reqs[j].retries >= MAX_RETRIES
  {
    SweepLogGrows(q, n, now);
    if n > 0 && i < |SweptTo(q, n - 1, now).log| {
      SweepLogGrows(q, n - 1, now);
      SweepFate(q, n - 1, now, i);
    }
  }

  lemma {:induction false} SweepLogGrows(q: Queue, n: nat, now: int)
    requires n <= |q.reqs|
    ensures q.log <= SweptTo(q, n, now).log
  {
    if n > 0 { SweepLogGrows(q, n - 1, now); }
  }

  /** An answer empties the queue of requests for its address exactly when there is at most one: on a
      second interface the same address goes on waiting. */
  lemma AnswerFlushesAll(q: Queue, ip4: nat, mac: nat)
    ensures (forall r :: r in Answered(q, ip4, mac).reqs ==> r.key.ip4 != ip4) <==>
            (forall i, j :: 0 <= i < j < |q.reqs| && q.reqs[i].key.ip4 == ip4 ==> q.reqs[j].key.ip4 != ip4)
  {
    if FindIp(q.reqs, 0, ip4) != -1 {
      forall i, j | 0 <= i < j < |q.reqs| && q.reqs[i].key.ip4 == ip4 && q.reqs[j].key.ip4 == ip4
        ensures exists r :: r in Answered(q, ip4, mac).reqs && r.key.ip4 == ip4
      {
        SecondStays(q, ip4, mac, i, j);
      }
      forall r | r in Answered(q, ip4, mac).reqs && r.key.ip4 == ip4
        ensures exists i, j :: 0 <= i < j < |q.reqs| && q.reqs[i].key.ip4 == ip4 && q.reqs[j].key.ip4 == ip4
      {
        StayedWasSecond(q, ip4, mac, r);
      }
    }
  }

  /** One address asked for on two interfaces, then answered: the older request is left behind. */
  lemma SecondInterfaceLeftWaiting(ip4: nat, mac: nat, p: Packet, q: Packet, now: int)
    ensures var ops := [Append(Key(1, ip4), p, now), Append(Key(2, ip4), q, now), Answer(ip4, mac)];
            && DoAll(Queue([], [], []), ops).reqs == [Req(Key(1, ip4), now, 1, [p])]
            && DoAll(Queue([], [], []), ops).log == [Done(Key(2, ip4), q, SentTo(mac))]
  {
    var a, b, c := Append(Key(1, ip4), p, now), Append(Key(2, ip4), q, now), Answer(ip4, mac);
    var one, two, three := [a], [a, b], [a, b, c];
    assert one[..|one| - 1] == [] && two[..|two| - 1] == one && three[..|three| - 1] == two;
    var r1, r2 := Req(Key(1, ip4), now, 1, [p]), Req(Key(2, ip4), now, 1, [q]);
    assert DoAll(Queue([], [], []), one).reqs == [r1];
    var s := DoAll(Queue([], [], []), two);
    assert FindKey([r1], 0, Key(2, ip4)) == -1;
    assert s.reqs == [r2, r1] && s.log == [];
    assert FindIp(s.reqs, 0, ip4) == 0 && Leaving(r2, SentTo(mac)) == [Done(Key(2, ip4), q, SentTo(mac))];
  }

  lemma SecondStays(q: Queue, ip4: nat, mac: nat, i: nat, j: nat)
    requires i < j < |q.reqs| && q.reqs[i].key.ip4 == ip4 && q.reqs[j].key.ip4 == ip4
    ensures q.reqs[j] in Answered(q, ip4, mac).reqs
  {
    FirstIp(q.reqs, 0, ip4);
    assert Answered(q, ip4, mac).reqs[j - 1] == q.reqs[j];
  }

  lemma StayedWasSecond(q: Queue, ip4: nat, mac: nat, r: Req)
    requires FindIp(q.reqs, 0, ip4) != -1 && r in Answered(q, ip4, mac).reqs && r.key.ip4 == ip4
    ensures exists i, j :: 0 <= i < j < |q.reqs| && q.reqs[i].key.ip4 == ip4 && q.reqs[j].key.ip4 == ip4
  {
    var f, left := FindIp(q.reqs, 0, ip4), Answered(q, ip4, mac).reqs;
    FirstIp(q.reqs, 0, ip4);
    var k :| 0 <= k < |left| && left[k] == r;
    assert k >= f && q.reqs[k + 1] == r;
  }

  lemma {:induction false} FirstIp(reqs: seq<Req>, from: nat, ip4: nat)
    requires from <= |reqs|
    ensures forall j :: from <= j < FindIp(reqs, from, ip4) ==> reqs[j].key.ip4 != ip4
    decreases |reqs| - from
  {
    if from < |reqs| { FirstIp(reqs, from + 1, ip4); }
  }

  // ----- how long a request lasts -----

  ghost function Retried(r: Req, n: nat): Req {
    r.(retries := r.retries + n)
  }

  lemma {:induction false} DueRequestSwept(q: Queue, n: nat, now: int, i: nat)
    requires i < n <= |q.reqs| && OnePerKey(q.reqs) && Due(q.reqs[i], now)
    ensures q.reqs[i].retries < MAX_RETRIES ==> Retried(q.reqs[i], 1) in SweptTo(q, n, now).reqs
    ensures q.reqs[i].retries >= MAX_RETRIES ==> Lacks(SweptTo(q, n, now).reqs, q.reqs[i].key)
  {
    if i < n - 1 {
      DueRequestSwept(q, n - 1, now, i);
    } else {
      NextKeyIsNew(q, n - 1, now);
    }
  }

  lemma {:induction false} EarlyRequestKept(q: Queue, n: nat, now: int, i: nat)
    requires i < n <= |q.reqs| && !Due(q.reqs[i], now)
    ensures q.reqs[i] in SweptTo(q, n, now).reqs
  {
    if i < n - 1 { EarlyRequestKept(q, n - 1, now, i); }
  }

  lemma {:induction false} GivenUpIsLogged(q: Queue, n: nat, now: int, i: nat, p: Packet)
    requires i < n <= |q.reqs| && Due(q.reqs[i], now) && q.reqs[i].retries >= MAX_RETRIES && p in q.reqs[i].packets
    ensures Done(q.reqs[i].key, p, Unreachable) in SweptTo(q, n, now).log
  {
    if i < n - 1 {
      GivenUpIsLogged(q, n - 1, now, i, p);
    } else {
      var j :| 0 <= j < |q.reqs[i].packets| && q.reqs[i].packets[j] == p;
      assert Leaving(q.reqs[i], Unreachable)[j] == Done(q.reqs[i].key, p, Unreachable);
    }
  }

  /** Request `r` after `n` more due sweeps and with `more` packets added. */
  ghost function Grown(r: Req, n: nat, more: seq<Packet>): Req {
    r.(retries := r.retries + n, packets := r.packets + more)
  }

  lemma AppendKeepsWaiting(q: Queue, k: Key, p: Packet, now: int, x: Req)
    requires OnePerKey(q.reqs) && x in q.reqs
    ensures (if k == x.key then x.(packets := x.packets + [p]) else x) in Appended(q, k, p, now).reqs
  {
    var i :| 0 <= i < |q.reqs| && q.reqs[i] == x;
    var q', f := Appended(q, k, p, now), FindKey(q.reqs, 0, k);
    if f == -1 {
      assert q'.reqs[i + 1] == x;
    } else if f == i {
      assert q'.reqs[i] == x.(packets := x.packets + [p]);
    } else {
      assert q'.reqs[i] == x && q.reqs[f].key == k;
    }
  }

  lemma AnswerKeepsWaiting(q: Queue, ip4: nat, mac: nat, x: Req)
    requires x in q.reqs && ip4 != x.key.ip4
    ensures x in Answered(q, ip4, mac).reqs
  {
    var i :| 0 <= i < |q.reqs| && q.reqs[i] == x;
    var q', f := Answered(q, ip4, mac), FindIp(q.reqs, 0, ip4);
    if f == -1 || i < f {
      assert q'.reqs[i] == x;
    } else {
      assert q'.reqs[i - 1] == x;
    }
  }

  lemma SweepKeepsWaiting(q: Queue, now: int, x: Req)
    requires OnePerKey(q.reqs) && x in q.reqs
    ensures !Due(x, now) ==> x in Swept(q, now).reqs
    ensures Due(x, now) && x.retries < MAX_RETRIES ==> Retried(x, 1) in Swept(q, now).reqs
    ensures Due(x, now) && x.retries >= MAX_RETRIES ==> Lacks(Swept(q, now).reqs, x.key)
    ensures Due(x, now) && x.retries >= MAX_RETRIES ==>
            forall p :: p in x.packets ==> Done(x.key, p, Unreachable) in Swept(q, now).log
  {
    var i :| 0 <= i < |q.reqs| && q.reqs[i] == x;
    if !Due(x, now) {
      EarlyRequestKept(q, |q.reqs|, now, i);
    } else {
      DueRequestSwept(q, |q.reqs|, now, i);
      if x.retries >= MAX_RETRIES {
        forall p | p in x.packets ensures Done(x.key, p, Unreachable) in Swept(q, now).log {
          GivenUpIsLogged(q, |q.reqs|, now, i, p);
        }
      }
    }
  }

  /** Sweeps of a run that find a request sent at `sent` due. */
  ghost function DueSweeps(ops: seq<Op>, r: Req): nat {
    if ops == [] then 0
    else
      DueSweeps(ops[..|ops| - 1], r) +
      if ops[|ops| - 1].Sweep? && ops[|ops| - 1].now >= r.sent + 1 then 1 else 0
  }

  ghost predicate NoAnswer(ops: seq<Op>, ip4: nat) {
    forall i :: 0 <= i < |ops| && ops[i].Answer? ==> ops[i].ip4 != ip4
  }

  lemma DoKeepsOnePerKey(q: Queue, op: Op)
    requires OnePerKey(q.reqs)
    ensures OnePerKey(Do(q, op).reqs)
  {
    if op.Sweep? { SweepKeys(q, |q.reqs|, op.now); }
  }

  /** Packets a run hands over for a key, in order. */
  ghost function Joined(ops: seq<Op>, k: Key): seq<Packet> {
    Handed(Given(ops), k)
  }

  lemma JoinedStep(ops: seq<Op>, k: Key)
    requires ops != []
    ensures var op := ops[|ops| - 1];
            Joined(ops, k) == Joined(ops[..|ops| - 1], k) + if op.Append? && op.k == k then [op.p] else []
  {
    var before, all := Given(ops[..|ops| - 1]), Given(ops);
    if ops[|ops| - 1].Append? {
      assert all[..|all| - 1] == before;
    } else {
      assert all == before;
    }
  }

  /** Request `r` after a run that neither answers nor gives it up. */
  ghost function GrownBy(r: Req, ops: seq<Op>): Req {
    Grown(r, DueSweeps(ops, r), Joined(ops, r.key))
  }

  /** One more operation: one more retry if it is a due sweep, one more packet if it brings one. */
  lemma GrownStep(r: Req, ops: seq<Op>)
    requires ops != []
    ensures var x, op := GrownBy(r, ops[..|ops| - 1]), ops[|ops| - 1];
            GrownBy(r, ops) == match op
                               case Append(k, p, _) => if k == r.key then x.(packets := x.packets + [p]) else x
                               case Answer(_, _) => x
                               case Sweep(now) => if Due(r, now) then Retried(x, 1) else x
  {
    JoinedStep(ops, r.key);
    var x := GrownBy(r, ops[..|ops| - 1]);
    if ops[|ops| - 1].Append? && ops[|ops| - 1].k == r.key {
      assert GrownBy(r, ops).packets == x.packets + [ops[|ops| - 1].p];
    }
  }

  lemma DoKeepsWaiting(q: Queue, r: Req, ops: seq<Op>)
    requires ops != [] && OnePerKey(q.reqs) && GrownBy(r, ops[..|ops| - 1]) in q.reqs
    requires NoAnswer(ops, r.key.ip4) && r.retries + DueSweeps(ops, r) <= MAX_RETRIES
    ensures GrownBy(r, ops) in Do(q, ops[|ops| - 1]).reqs
  {
    var x := GrownBy(r, ops[..|ops| - 1]);
    GrownStep(r, ops);
    match ops[|ops| - 1]
    case Append(k, p, now) => AppendKeepsWaiting(q, k, p, now, x);
    case Answer(ip4, mac) => AnswerKeepsWaiting(q, ip4, mac, x);
    case Sweep(now) => SweepKeepsWaiting(q, now, x);
  }

  /** Through any run without an answer for its address a request waits, asked for once more at every
      due sweep and with every packet handed over for it, as long as it has been asked for at most five
      times. */
  lemma {:induction false} UnansweredWaits(q: Queue, r: Req, ops: seq<Op>)
    requires OnePerKey(q.reqs) && r in q.reqs && NoAnswer(ops, r.key.ip4)
    requires r.retries + DueSweeps(ops, r) <= MAX_RETRIES
    ensures OnePerKey(DoAll(q, ops).reqs) && GrownBy(r, ops) in DoAll(q, ops).reqs
  {
    if ops == [] {
      assert GrownBy(r, []) == r;
    } else {
      var m := |ops| - 1;
      UnansweredWaits(q, r, ops[..m]);
      DoKeepsOnePerKey(DoAll(q, ops[..m]), ops[m]);
      DoKeepsWaiting(DoAll(q, ops[..m]), r, ops);
    }
  }

  /** An unanswered request is gone at the first due sweep after it has been asked for five times, with
      every packet, those handed over meanwhile included, reported unreachable: a new request survives
      four due sweeps and not the fifth. */
  lemma UnansweredIsGone(q: Queue, r: Req, ops: seq<Op>, now: int)
    requires OnePerKey(q.reqs) && r in q.reqs && NoAnswer(ops, r.key.ip4)
    requires r.retries + DueSweeps(ops, r) == MAX_RETRIES && Due(r, now)
    ensures var s := Do(DoAll(q, ops), Sweep(now));
            && Lacks(s.reqs, r.key)
            && forall p :: p in r.packets + Joined(ops, r.key) ==> Done(r.key, p, Unreachable) in s.log
  {
    UnansweredWaits(q, r, ops);
    SweepKeepsWaiting(DoAll(q, ops), now, GrownBy(r, ops));
  }

  // ----- ARP requests -----

  /** How often a key has been asked for. */
  ghost function Times(asked: seq<Key>, k: Key): nat {
    multiset(asked)[k]
  }

  lemma TimesMore(asked: seq<Key>, c: Key, k: Key)
    ensures Times(asked + [c], k) == Times(asked, k) + if c == k then 1 else 0
  {
  }

  /** Some pending request for the key is at least a second old and has been asked for less than five times. */
  ghost predicate AskAgain(reqs: seq<Req>, k: Key, now: int) {
    exists i :: 0 <= i < |reqs| && reqs[i].key == k && reqs[i].sent + 1 <= now && reqs[i].retries < 5
  }

  /** The operation makes the cache ask for the key: a packet with no request pending for its key, or a
      sweep that finds one to be asked for again. */
  ghost predicate AsksFor(q: Queue, op: Op, k: Key) {
    match op
    case Append(c, _, _) => c == k && Lacks(q.reqs, k)
    case Answer(_, _) => false
    case Sweep(now) => AskAgain(q.reqs, k, now)
  }

  lemma {:induction false} SweepAsks(q: Queue, n: nat, now: int, k: Key)
    requires n <= |q.reqs| && OnePerKey(q.reqs)
    ensures Times(SweptTo(q, n, now).asked, k) == Times(q.asked, k) + if AskAgain(q.reqs[..n], k, now) then 1 else 0
  {
    if n > 0 {
      var before, r, reqs := SweptTo(q, n - 1, now), q.reqs[n - 1], q.reqs[..n];
      SweepAsks(q, n - 1, now, k);
      TimesMore(before.asked, r.key, k);
      assert reqs == q.reqs[..n - 1] + [r];
      AskAgainMore(q.reqs[..n - 1], r, k, now);
    }
  }

  lemma AskAgainMore(reqs: seq<Req>, r: Req, k: Key, now: int)
    ensures AskAgain(reqs + [r], k, now) <==> AskAgain(reqs, k, now) || (r.key == k && r.sent + 1 <= now && r.retries < 5)
  {
    var all := reqs + [r];
    if AskAgain(reqs, k, now) {
      var i :| 0 <= i < |reqs| && reqs[i].key == k && reqs[i].sent + 1 <= now && reqs[i].retries < 5;
      assert all[i] == reqs[i];
    }
    if r.key == k && r.sent + 1 <= now && r.retries < 5 {
      assert all[|reqs|] == r;
    }
  }

  lemma DoAsks(q: Queue, op: Op, k: Key)
    requires OnePerKey(q.reqs)
    ensures Times(Do(q, op).asked, k) == Times(q.asked, k) + if AsksFor(q, op, k) then 1 else 0
  {
    match op
    case Append(c, p, now) => TimesMore(q.asked, c, k);
    case Answer(ip4, mac) =>
    case Sweep(now) =>
      SweepAsks(q, |q.reqs|, now, k);
      assert q.reqs[..|q.reqs|] == q.reqs;
  }

  /** Operations of a run that make the cache ask for the key. */
  ghost function Asks(ops: seq<Op>, k: Key): nat {
    if ops == [] then 0
    else
      var before := ops[..|ops| - 1];
      Asks(before, k) + if AsksFor(DoAll(Queue([], [], []), before), ops[|ops| - 1], k) then 1 else 0
  }

  /** In every run a key is asked for once for each packet that finds no request pending for it, and once
      for each sweep that finds its request due and short of the limit. */
  lemma {:induction false} EveryRunAsks(ops: seq<Op>, k: Key)
    ensures Times(DoAll(Queue([], [], []), ops).asked, k) == Asks(ops, k)
  {
    if ops != [] {
      var before := ops[..|ops| - 1];
      EveryRunAsks(before, k);
      EveryRunBalanced(before);
      DoAsks(DoAll(Queue([], [], []), before), ops[|ops| - 1], k);
    }
  }

  /** While a request waits, its key is asked for once more at every due sweep and at no other time. */
  lemma {:induction false} WaitingIsAskedFor(q: Queue, r: Req, ops: seq<Op>)
    requires OnePerKey(q.reqs) && r in q.reqs && NoAnswer(ops, r.key.ip4)
    requires r.retries + DueSweeps(ops, r) <= MAX_RETRIES
    ensures Times(DoAll(q, ops).asked, r.key) == Times(q.asked, r.key) + DueSweeps(ops, r)
  {
    if ops != [] {
      var m := |ops| - 1;
      WaitingIsAskedFor(q, r, ops[..m]);
      UnansweredWaits(q, r, ops[..m]);
      var s, x := DoAll(q, ops[..m]), GrownBy(r, ops[..m]);
      DoAsks(s, ops[m], r.key);
      var i :| 0 <= i < |s.reqs| && s.reqs[i] == x;
      assert s.reqs[i].key == r.key;
    }
  }

  // ----- the queue as the program keeps it -----

  class ArpCache {
    var reqs: seq<Req>
    var log: seq<Done>
    var asked: seq<Key>

    ghost function State(): Queue
      reads this
    {
      Queue(reqs, log, asked)
    }

    constructor ()
      ensures State() == Queue([], [], [])
    {
      reqs, log, asked := [], [], [];
    }

    method AppendPacket(k: Key, p: Packet, now: int)
      modifies this
      ensures State() == Appended(old(State()), k, p, now)
    {
      var found, i := false, 0;
      while i < |reqs|
        invariant 0 <= i <= |reqs| && reqs == old(reqs) && log == old(log) && asked == old(asked)
        invariant !found && FindKey(reqs, 0, k) == FindKey(reqs, i, k)
      {
        if reqs[i].key.iface == k.iface && reqs[i].key.ip4 == k.ip4 {
          found := true;
          break;
        }
        i := i + 1;
      }
      if !found {
        reqs := [Req(k, now, 1, [])] + reqs;
        i := 0;
      }
      reqs := reqs[i := reqs[i].(packets := reqs[i].packets + [p])];
      if !found {
        assert [] + [p] == [p];
        assert reqs == [Req(k, now, 1, [p])] + old(reqs);
        asked := asked + [k];
      }
    }

    method SendOff(r: Req, fate: Fate)
      modifies this`log
      ensures log == old(log) + Leaving(r, fate)
    {
      for j := 0 to |r.packets|
        invariant log == old(log) + Leaving(r, fate)[..j]
      {
        log := log + [Done(r.key, r.packets[j], fate)];
      }
    }

    method Insert(ip4: nat, mac: nat)
      modifies this
      ensures State() == Answered(old(State()), ip4, mac)
    {
      var i := 0;
      while i < |reqs|
        invariant 0 <= i <= |reqs| && State() == old(State())
        invariant FindIp(reqs, 0, ip4) == FindIp(reqs, i, ip4)
      {
        if reqs[i].key.ip4 == ip4 {
          SendOff(reqs[i], SentTo(mac));
          reqs := reqs[..i] + reqs[i + 1..];
          break;
        }
        i := i + 1;
      }
    }

    method Sweep(now: int)
      modifies this
      ensures State() == Swept(old(State()), now)
    {
      var list, kept := reqs, [];
      for n := 0 to |list|
        invariant Queue(kept, log, asked) == SweptTo(old(State()), n, now)
      {
        var r := list[n];
        if now - r.sent < 1 {
          kept := kept + [r];
        } else if r.retries < MAX_RETRIES {
          kept := kept + [r.(retries := r.retries + 1)];
          asked := asked + [r.key];
        } else {
          SendOff(r, Unreachable);
        }
      }
      reqs := kept;
    }
  }
}
