/** Flooding of link-state updates through a network of mOSPF daemons, as steps on the copies in
    flight. Topology and neighbour tables may differ at every step; only the fan-out is bounded. */
module MospfFlooding {
  import opened MospfDatabase
  import opened MospfDaemon
  import opened Wrappers

  /** The receiving router at the moment of a delivery. */
  datatype Receiver = Receiver(self: nat, ifaces: seq<Iface>, inIndex: nat)

  ghost function FanOut(ifaces: seq<Iface>, k: nat): nat
    requires k <= |ifaces|
  {
    if k == 0 then 0 else FanOut(ifaces, k - 1) + |ifaces[k - 1].nbrs|
  }

  datatype Step = Deliver(j: nat, to: Receiver) | Lose(j: nat)

  ghost predicate Enabled(flight: seq<Copy>, s: Step, K: nat) {
    match s
    case Deliver(j, to) => j < |flight| && FanOut(to.ifaces, |to.ifaces|) <= K
    case Lose(j) => j < |flight|
  }

  ghost function Without(flight: seq<Copy>, j: nat): seq<Copy>
    requires j < |flight|
  {
    flight[..j] + flight[j + 1..]
  }

  /** Delivery replaces a copy by whatever its receiver sends out, as `HandleLsu` computes it. */
  ghost function After(flight: seq<Copy>, s: Step): seq<Copy>
    requires s.j < |flight|
  {
    match s
    case Deliver(j, to) => Without(flight, j) + Forwarded(to.self, to.ifaces, to.inIndex, flight[j].lsu)
    case Lose(j) => Without(flight, j)
  }

  /** Every copy in flight still has a TTL to spend. */
  ghost predicate Alive(flight: seq<Copy>) {
    forall i :: 0 <= i < |flight| ==> 1 <= flight[i].lsu.ttl <= MAX_LSU_TTL
  }

  ghost function Pow(b: nat, e: nat): nat {
    if e == 0 then 1 else b * Pow(b, e - 1)
  }

  /** The work the copies in flight can still cause. */
  ghost function Potential(flight: seq<Copy>, K: nat): nat {
    if flight == [] then 0
    else Potential(flight[..|flight| - 1], K) + Pow(K + 1, flight[|flight| - 1].lsu.ttl)
  }

  lemma {:induction false} PowPositive(b: nat, e: nat)
    requires b > 0
    ensures Pow(b, e) > 0
  {
    if e > 0 { PowPositive(b, e - 1); }
  }

  lemma {:induction false} PotentialConcat(a: seq<Copy>, b: seq<Copy>, K: nat)
    ensures Potential(a + b, K) == Potential(a, K) + Potential(b, K)
    decreases |b|
  {
    if b == [] {
      assert a + b == a;
    } else {
      PotentialConcat(a, b[..|b| - 1], K);
      assert (a + b)[..|a + b| - 1] == a + b[..|b| - 1];
    }
  }

  lemma PotentialSplit(flight: seq<Copy>, j: nat, K: nat)
    requires j < |flight|
    ensures Potential(flight, K) == Potential(Without(flight, j), K) + Pow(K + 1, flight[j].lsu.ttl)
  {
    assert flight == flight[..j] + ([flight[j]] + flight[j + 1..]);
    PotentialConcat(flight[..j], [flight[j]] + flight[j + 1..], K);
    PotentialConcat([flight[j]], flight[j + 1..], K);
    PotentialConcat(flight[..j], flight[j + 1..], K);
    assert [flight[j]][..0] == [];
  }

  /** At most one copy per neighbour goes out, all with the given TTL. */
  lemma {:induction false} CopiesBound(ifaces: seq<Iface>, k: nat, from: Option<nat>, u: Lsu)
    requires k <= |ifaces|
    ensures |Copies(ifaces, k, from, u)| <= FanOut(ifaces, k)
    ensures forall c :: c in Copies(ifaces, k, from, u) ==> c.lsu == u
  {
    if k > 0 { CopiesBound(ifaces, k - 1, from, u); }
  }

  lemma {:induction false} UniformPotential(flight: seq<Copy>, t: nat, K: nat)
    requires forall c :: c in flight ==> c.lsu.ttl == t
    ensures Potential(flight, K) == |flight| * Pow(K + 1, t)
  {
    if flight != [] {
      var m := |flight| - 1;
      UniformPotential(flight[..m], t, K);
      assert flight[m] in flight;
      assert (m + 1) * Pow(K + 1, t) == m * Pow(K + 1, t) + Pow(K + 1, t);
    }
  }

  lemma FewerAreLighter(n: nat, K: nat, t: nat)
    requires n <= K
    ensures n * Pow(K + 1, t) < Pow(K + 1, t + 1)
  {
    var p := Pow(K + 1, t);
    PowPositive(K + 1, t);
    assert (K + 1 - n) * p > 0;
    assert Pow(K + 1, t + 1) == (K + 1) * p == n * p + (K + 1 - n) * p;
  }

  /** What goes out carries one TTL less than what came in, and never zero. */
  lemma ForwardedTtl(to: Receiver, u: Lsu, c: Copy)
    requires 1 <= u.ttl <= MAX_LSU_TTL && c in Forwarded(to.self, to.ifaces, to.inIndex, u)
    ensures c.lsu.ttl == u.ttl - 1 >= 1
  {
    CopiesBound(to.ifaces, |to.ifaces|, Some(to.inIndex), u.(ttl := u.ttl - 1));
  }

  lemma ForwardedFanOut(to: Receiver, u: Lsu)
    ensures |Forwarded(to.self, to.ifaces, to.inIndex, u)| <= FanOut(to.ifaces, |to.ifaces|)
  {
    CopiesBound(to.ifaces, |to.ifaces|, Some(to.inIndex), u.(ttl := Decrement(u.ttl)));
  }

  /** The copies a delivery causes weigh strictly less than the copy that was delivered, and no
      decrement wraps around. */
  lemma ForwardedWeighsLess(to: Receiver, u: Lsu, K: nat)
    requires 1 <= u.ttl <= MAX_LSU_TTL && FanOut(to.ifaces, |to.ifaces|) <= K
    ensures Alive(Forwarded(to.self, to.ifaces, to.inIndex, u))
    ensures Potential(Forwarded(to.self, to.ifaces, to.inIndex, u), K) < Pow(K + 1, u.ttl)
  {
    var out := Forwarded(to.self, to.ifaces, to.inIndex, u);
    forall c | c in out ensures c.lsu.ttl == u.ttl - 1 >= 1 {
      ForwardedTtl(to, u, c);
    }
    ForwardedFanOut(to, u);
    UniformPotential(out, u.ttl - 1, K);
    FewerAreLighter(|out|, K, u.ttl - 1);
  }

  /** Every step keeps TTLs in range and uses up potential. */
  lemma StepDescends(flight: seq<Copy>, s: Step, K: nat)
    requires Alive(flight) && Enabled(flight, s, K)
    ensures Alive(After(flight, s)) && Potential(After(flight, s), K) < Potential(flight, K)
  {
    PotentialSplit(flight, s.j, K);
    PowPositive(K + 1, flight[s.j].lsu.ttl);
    match s
    case Deliver(j, to) =>
      ForwardedWeighsLess(to, flight[j].lsu, K);
      PotentialConcat(Without(flight, j), Forwarded(to.self, to.ifaces, to.inIndex, flight[j].lsu), K);
    case Lose(j) =>
  }

  /** `steps` can be taken one after the other from `flight`. */
  ghost predicate Runs(flight: seq<Copy>, steps: seq<Step>, K: nat)
    decreases |steps|
  {
    steps == [] || (Enabled(flight, steps[0], K) && Runs(After(flight, steps[0]), steps[1..], K))
  }

  ghost function Final(flight: seq<Copy>, steps: seq<Step>, K: nat): seq<Copy>
    requires Runs(flight, steps, K)
    decreases |steps|
  {
    if steps == [] then flight else Final(After(flight, steps[0]), steps[1..], K)
  }

  /** Flooding stops: no run is longer than the potential it starts with, in any changing topology. */
  lemma {:induction false} FloodingStops(flight: seq<Copy>, steps: seq<Step>, K: nat)
    requires Alive(flight) && Runs(flight, steps, K)
    ensures |steps| + Potential(Final(flight, steps, K), K) <= Potential(flight, K)
    ensures Alive(Final(flight, steps, K))
    decreases |steps|
  {
    if steps != [] {
      StepDescends(flight, steps[0], K);
      FloodingStops(After(flight, steps[0]), steps[1..], K);
    }
  }

  /** One freshly built update sent to `n` neighbours causes at most n (K+1)^255 further steps. */
  lemma FreshUpdateStops(flight: seq<Copy>, steps: seq<Step>, K: nat)
    requires forall c :: c in flight ==> c.lsu.ttl == MAX_LSU_TTL
    requires Runs(flight, steps, K)
    ensures |steps| <= |flight| * Pow(K + 1, MAX_LSU_TTL)
  {
    assert Alive(flight) by {
      forall i | 0 <= i < |flight| ensures flight[i].lsu.ttl == MAX_LSU_TTL { assert flight[i] in flight; }
    }
    UniformPotential(flight, MAX_LSU_TTL, K);
    FloodingStops(flight, steps, K);
  }
}
