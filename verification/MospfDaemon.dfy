/** Neighbour tables, link-state updates and their storage in the mOSPF daemon. */
module MospfDaemon {
  import opened MospfDatabase
  import opened Wrappers

  const HELLO_INTERVAL := 5
  const MAX_LSU_TTL := 255
  const SEQ_NUMBERS := 65536
  const DATABASE_TIMEOUT := 35

  datatype Nbr = Nbr(id: nat, ip: bv32, mask: bv32, alive: nat)
  datatype Iface = Iface(index: nat, ip: bv32, mask: bv32, numNbr: int, nbrs: seq<Nbr>)
  datatype Hello = Hello(rid: nat, ip: bv32, mask: bv32)

  /** A link-state update: header fields and the LSAs that follow them; `nadv` is their number. */
  datatype Lsu = Lsu(rid: nat, seqNum: nat, ttl: nat, lsas: seq<Lsa>)

  /** A copy handed to the IP layer: leaving through one interface towards one neighbour. */
  datatype Copy = Copy(via: nat, dst: bv32, lsu: Lsu)

  // ----- neighbour tables -----

  /** The counter kept beside a neighbour list is its length, and addresses are not repeated. */
  ghost predicate Counted(iface: Iface) {
    && iface.numNbr == |iface.nbrs|
    && (forall i, j :: 0 <= i < j < |iface.nbrs| ==> iface.nbrs[i].ip != iface.nbrs[j].ip)
    && (forall i :: 0 <= i < |iface.nbrs| ==> iface.nbrs[i].alive <= 3 * HELLO_INTERVAL + 1)
  }

  ghost predicate AllCounted(ifaces: seq<Iface>) {
    forall k :: 0 <= k < |ifaces| ==> Counted(ifaces[k])
  }

  ghost predicate Knows(nbrs: seq<Nbr>, ip: bv32) {
    exists i :: 0 <= i < |nbrs| && nbrs[i].ip == ip
  }

  /** `handle_mospf_hello` on one interface. */
  ghost function Heard(iface: Iface, h: Hello): Iface {
    if Knows(iface.nbrs, h.ip) then
      iface.(nbrs := seq(|iface.nbrs|, i requires 0 <= i < |iface.nbrs| =>
        if iface.nbrs[i].ip == h.ip then iface.nbrs[i].(alive := 0) else iface.nbrs[i]))
    else
      iface.(nbrs := iface.nbrs + [Nbr(h.rid, h.ip, h.mask, 0)], numNbr := iface.numNbr + 1)
  }

  /** One pass of `checking_nbr_thread` over a neighbour list. */
  ghost function Aged(nbrs: seq<Nbr>): (r: seq<Nbr>)
    ensures |r| <= |nbrs|
  {
    if nbrs == [] then []
    else
      var last := nbrs[|nbrs| - 1];
      Aged(nbrs[..|nbrs| - 1]) +
      (if last.alive > 3 * HELLO_INTERVAL then [] else [last.(alive := last.alive + 1)])
  }

  ghost function AgedIface(iface: Iface): Iface {
    iface.(nbrs := Aged(iface.nbrs), numNbr := iface.numNbr - (|iface.nbrs| - |Aged(iface.nbrs)|))
  }

  /** Ageing keeps exactly the neighbours heard from recently enough, each one tick older. */
  lemma {:induction false} AgedMeaning(nbrs: seq<Nbr>, n: Nbr)
    ensures n in Aged(nbrs) <==>
            1 <= n.alive <= 3 * HELLO_INTERVAL + 1 && n.(alive := n.alive - 1) in nbrs
  {
    if nbrs != [] {
      var m := |nbrs| - 1;
      AgedMeaning(nbrs[..m], n);
      assert nbrs == nbrs[..m] + [nbrs[m]];
    }
  }

  lemma {:induction false} AgedDistinct(nbrs: seq<Nbr>)
    requires forall i, j :: 0 <= i < j < |nbrs| ==> nbrs[i].ip != nbrs[j].ip
    ensures forall i, j :: 0 <= i < j < |Aged(nbrs)| ==> Aged(nbrs)[i].ip != Aged(nbrs)[j].ip
    ensures forall i :: 0 <= i < |Aged(nbrs)| ==> Knows(nbrs, Aged(nbrs)[i].ip)
    ensures forall i :: 0 <= i < |Aged(nbrs)| ==> Aged(nbrs)[i].alive <= 3 * HELLO_INTERVAL + 1
  {
    if nbrs != [] {
      var m := |nbrs| - 1;
      AgedDistinct(nbrs[..m]);
      forall i | 0 <= i < |Aged(nbrs)| ensures Knows(nbrs, Aged(nbrs)[i].ip) {
        if i < |Aged(nbrs[..m])| {
          assert Knows(nbrs[..m], Aged(nbrs[..m])[i].ip);
        } else {
          assert nbrs[m].ip == Aged(nbrs)[i].ip;
        }
      }
      forall i | 0 <= i < |Aged(nbrs[..m])| ensures Aged(nbrs[..m])[i].ip != nbrs[m].ip {
        assert Knows(nbrs[..m], Aged(nbrs[..m])[i].ip);
      }
    }
  }

  lemma HeardKeepsCount(iface: Iface, h: Hello)
    requires Counted(iface)
    ensures Counted(Heard(iface, h)) && Knows(Heard(iface, h).nbrs, h.ip)
  {
    var r := Heard(iface, h);
    if Knows(iface.nbrs, h.ip) {
      var i :| 0 <= i < |iface.nbrs| && iface.nbrs[i].ip == h.ip;
      assert r.nbrs[i].ip == h.ip;
    } else {
      assert r.nbrs[|iface.nbrs|].ip == h.ip;
      assert forall i :: 0 <= i < |iface.nbrs| ==> iface.nbrs[i].ip != h.ip;
    }
  }

  /** After a hello its sender, known or new, is one just heard from, and every other entry is left alone. */
  lemma HeardMeaning(iface: Iface, h: Hello, n: Nbr)
    ensures n.ip != h.ip ==> (n in Heard(iface, h).nbrs <==> n in iface.nbrs)
    ensures n.ip == h.ip && n in Heard(iface, h).nbrs ==> n.alive == 0
    ensures n.ip == h.ip && n in iface.nbrs ==> n.(alive := 0) in Heard(iface, h).nbrs
  {
    var r := Heard(iface, h);
    if Knows(iface.nbrs, h.ip) {
      forall i | 0 <= i < |iface.nbrs|
        ensures r.nbrs[i] == if iface.nbrs[i].ip == h.ip then iface.nbrs[i].(alive := 0) else iface.nbrs[i]
      {
      }
    }
  }

  /** A hello from an unknown address enters its sender with the router id and mask it gives. */
  lemma HeardNew(iface: Iface, h: Hello)
    requires !Knows(iface.nbrs, h.ip)
    ensures Nbr(h.rid, h.ip, h.mask, 0) in Heard(iface, h).nbrs
  {
    assert Heard(iface, h).nbrs[|iface.nbrs|] == Nbr(h.rid, h.ip, h.mask, 0);
  }

  lemma AgedKeepsCount(iface: Iface)
    requires Counted(iface)
    ensures Counted(AgedIface(iface))
  {
    AgedDistinct(iface.nbrs);
  }

  /** What can happen to the neighbour tables. */
  datatype Event = HelloArrives(at: nat, hello: Hello) | Tick

  ghost function Apply(ifaces: seq<Iface>, e: Event): seq<Iface> {
    match e
    case HelloArrives(at, h) => if at < |ifaces| then ifaces[at := Heard(ifaces[at], h)] else ifaces
    case Tick => seq(|ifaces|, k requires 0 <= k < |ifaces| => AgedIface(ifaces[k]))
  }

  ghost function ApplyAll(ifaces: seq<Iface>, es: seq<Event>): seq<Iface> {
    if es == [] then ifaces else Apply(ApplyAll(ifaces, es[..|es| - 1]), es[|es| - 1])
  }

  /** In every run of hellos and timeouts each counter equals the length of its list. */
  lemma {:induction false} CountersStayExact(ifaces: seq<Iface>, es: seq<Event>)
    requires AllCounted(ifaces)
    ensures AllCounted(ApplyAll(ifaces, es))
  {
    if es != [] {
      var before, e := ApplyAll(ifaces, es[..|es| - 1]), es[|es| - 1];
      CountersStayExact(ifaces, es[..|es| - 1]);
      forall k | 0 <= k < |before| ensures Counted(Apply(before, e)[k]) {
        AgedKeepsCount(before[k]);
        if e.HelloArrives? { HeardKeepsCount(before[k], e.hello); }
      }
    }
  }

  /** The list holds `n` with the given age and nothing else under its address. */
  ghost predicate HoldsOnly(nbrs: seq<Nbr>, n: Nbr, age: nat) {
    n.(alive := age) in nbrs && forall m :: m in nbrs && m.ip == n.ip ==> m == n.(alive := age)
  }

  ghost predicate Forgotten(nbrs: seq<Nbr>, n: Nbr) {
    forall m :: m in nbrs ==> m.ip != n.ip
  }

  lemma SilentTick(nbrs: seq<Nbr>, n: Nbr, age: nat)
    requires HoldsOnly(nbrs, n, age)
    ensures age <= 3 * HELLO_INTERVAL ==> HoldsOnly(Aged(nbrs), n, age + 1)
    ensures age > 3 * HELLO_INTERVAL ==> Forgotten(Aged(nbrs), n)
  {
    AgedMeaning(nbrs, n.(alive := age + 1));
    forall m | m in Aged(nbrs) && m.ip == n.ip
      ensures m == n.(alive := age + 1) && age <= 3 * HELLO_INTERVAL
    {
      AgedMeaning(nbrs, m);
      assert m.(alive := m.alive - 1) == n.(alive := age);
    }
  }

  lemma ForgottenStays(nbrs: seq<Nbr>, n: Nbr)
    requires Forgotten(nbrs, n)
    ensures Forgotten(Aged(nbrs), n)
  {
    forall m | m in Aged(nbrs) ensures m.ip != n.ip {
      AgedMeaning(nbrs, m);
    }
  }

  lemma OthersHeard(iface: Iface, h: Hello, n: Nbr, age: nat)
    requires h.ip != n.ip
    ensures HoldsOnly(iface.nbrs, n, age) ==> HoldsOnly(Heard(iface, h).nbrs, n, age)
    ensures Forgotten(iface.nbrs, n) ==> Forgotten(Heard(iface, h).nbrs, n)
  {
    HeardMeaning(iface, h, n.(alive := age));
    forall m | m in Heard(iface, h).nbrs && m.ip == n.ip ensures m in iface.nbrs {
      HeardMeaning(iface, h, m);
    }
  }

  ghost function Ticks(es: seq<Event>): nat {
    if es == [] then 0 else Ticks(es[..|es| - 1]) + if es[|es| - 1].Tick? then 1 else 0
  }

  predicate IsHelloFrom(e: Event, k: nat, ip: bv32) {
    e.HelloArrives? && e.at == k && e.hello.ip == ip
  }

  /** No hello from the address comes in on interface `k`. */
  ghost predicate Silent(es: seq<Event>, k: nat, ip: bv32) {
    forall i :: 0 <= i < |es| ==> !IsHelloFrom(es[i], k, ip)
  }

  /** What `t` passes without a hello make of a neighbour of the given age. */
  ghost predicate AgedBy(nbrs: seq<Nbr>, n: Nbr, age: nat, t: nat) {
    if t == 0 || age + t <= 3 * HELLO_INTERVAL + 1 then HoldsOnly(nbrs, n, age + t) else Forgotten(nbrs, n)
  }

  /** In every run without a hello from it on its interface, whatever other hellos arrive, a neighbour
      of age `age` stays while age and passes add up to at most sixteen and is gone from then on. */
  lemma {:induction false} SilenceTimesOut(ifaces: seq<Iface>, k: nat, n: Nbr, age: nat, es: seq<Event>)
    requires k < |ifaces| && HoldsOnly(ifaces[k].nbrs, n, age) && Silent(es, k, n.ip)
    ensures |ApplyAll(ifaces, es)| == |ifaces|
    ensures AgedBy(ApplyAll(ifaces, es)[k].nbrs, n, age, Ticks(es))
  {
    if es != [] {
      var m := |es| - 1;
      assert Silent(es[..m], k, n.ip) && !IsHelloFrom(es[m], k, n.ip);
      SilenceTimesOut(ifaces, k, n, age, es[..m]);
      SilentEvent(ApplyAll(ifaces, es[..m]), k, n, age, Ticks(es[..m]), es[m]);
    }
  }

  lemma SilentEvent(ifaces: seq<Iface>, k: nat, n: Nbr, age: nat, t: nat, e: Event)
    requires k < |ifaces| && AgedBy(ifaces[k].nbrs, n, age, t)
    requires !IsHelloFrom(e, k, n.ip)
    ensures |Apply(ifaces, e)| == |ifaces|
    ensures AgedBy(Apply(ifaces, e)[k].nbrs, n, age, if e.Tick? then t + 1 else t)
  {
    match e
    case HelloArrives(at, h) =>
      if at == k { OthersHeard(ifaces[k], h, n, age + t); }
    case Tick =>
      if t == 0 || age + t <= 3 * HELLO_INTERVAL + 1 {
        SilentTick(ifaces[k].nbrs, n, age + t);
      } else {
        ForgottenStays(ifaces[k].nbrs, n);
      }
  }

  // ----- one neighbour at a time -----

  /** What a run makes of the one address on interface `k`, if nothing is known at the start: id and mask
      are those of the first hello since it was last forgotten, the age counts passes since the last. */
  ghost function Remembered(es: seq<Event>, k: nat, ip: bv32): Option<Nbr> {
    if es == [] then None else RememberedNext(Remembered(es[..|es| - 1], k, ip), es[|es| - 1], k, ip)
  }

  ghost function RememberedNext(o: Option<Nbr>, e: Event, k: nat, ip: bv32): Option<Nbr> {
    if IsHelloFrom(e, k, ip) then
      (if o.None? then Some(Nbr(e.hello.rid, ip, e.hello.mask, 0)) else Some(o.value.(alive := 0)))
    else if e.Tick? && o.Some? then
      (if o.value.alive > 3 * HELLO_INTERVAL then None else Some(o.value.(alive := o.value.alive + 1)))
    else o
  }

  /** The list has at most the one entry for the address. */
  ghost predicate Shows(nbrs: seq<Nbr>, ip: bv32, o: Option<Nbr>) {
    forall n: Nbr :: n.ip == ip ==> (n in nbrs <==> o == Some(n))
  }

  lemma HelloShows(iface: Iface, h: Hello, o: Option<Nbr>)
    requires Shows(iface.nbrs, h.ip, o) && (o.Some? ==> o.value.ip == h.ip)
    ensures Shows(Heard(iface, h).nbrs, h.ip,
                  Some(if o.None? then Nbr(h.rid, h.ip, h.mask, 0) else o.value.(alive := 0)))
  {
    var r := Heard(iface, h);
    if o.None? {
      assert !Knows(iface.nbrs, h.ip) by {
        forall i | 0 <= i < |iface.nbrs| ensures iface.nbrs[i].ip != h.ip { assert iface.nbrs[i] in iface.nbrs; }
      }
      HeardNew(iface, h);
    } else {
      assert o.value in iface.nbrs;
      assert Knows(iface.nbrs, h.ip);
      HeardMeaning(iface, h, o.value);
      forall n | n in r.nbrs && n.ip == h.ip ensures n == o.value.(alive := 0) {
        var i :| 0 <= i < |r.nbrs| && r.nbrs[i] == n;
        assert iface.nbrs[i] in iface.nbrs;
      }
    }
  }

  lemma OtherHelloShows(iface: Iface, h: Hello, ip: bv32, o: Option<Nbr>)
    requires Shows(iface.nbrs, ip, o) && h.ip != ip
    ensures Shows(Heard(iface, h).nbrs, ip, o)
  {
    forall n: Nbr | n.ip == ip ensures n in Heard(iface, h).nbrs <==> n in iface.nbrs {
      HeardMeaning(iface, h, n);
    }
  }

  lemma TickShows(nbrs: seq<Nbr>, ip: bv32, o: Option<Nbr>)
    requires Shows(nbrs, ip, o) && (o.Some? ==> o.value.ip == ip)
    ensures Shows(Aged(nbrs), ip, if o.None? || o.value.alive > 3 * HELLO_INTERVAL then None
                                  else Some(o.value.(alive := o.value.alive + 1)))
  {
    forall n: Nbr | n.ip == ip
      ensures n in Aged(nbrs) <==> o.Some? && o.value.alive <= 3 * HELLO_INTERVAL && n == o.value.(alive := o.value.alive + 1)
    {
      AgedMeaning(nbrs, n);
    }
  }

  /** In every run from empty tables, each interface holds for each address exactly what that address's
      own hellos and the passes make of it. */
  lemma {:induction false} TableRemembers(ifaces: seq<Iface>, es: seq<Event>, k: nat, ip: bv32)
    requires k < |ifaces| && ifaces[k].nbrs == []
    ensures |ApplyAll(ifaces, es)| == |ifaces|
    ensures Remembered(es, k, ip).Some? ==> Remembered(es, k, ip).value.ip == ip
    ensures Shows(ApplyAll(ifaces, es)[k].nbrs, ip, Remembered(es, k, ip))
  {
    if es != [] {
      var m := |es| - 1;
      TableRemembers(ifaces, es[..m], k, ip);
      var before, o := ApplyAll(ifaces, es[..m]), Remembered(es[..m], k, ip);
      EventShows(before, es[m], k, ip, o);
    }
  }

  lemma EventShows(ifaces: seq<Iface>, e: Event, k: nat, ip: bv32, o: Option<Nbr>)
    requires k < |ifaces| && Shows(ifaces[k].nbrs, ip, o) && (o.Some? ==> o.value.ip == ip)
    ensures |Apply(ifaces, e)| == |ifaces| && Shows(Apply(ifaces, e)[k].nbrs, ip, RememberedNext(o, e, k, ip))
  {
    match e
    case HelloArrives(at, h) =>
      if at == k && h.ip == ip {
        HelloShows(ifaces[k], h, o);
      } else if at == k {
        OtherHelloShows(ifaces[k], h, ip, o);
      }
    case Tick => TickShows(ifaces[k].nbrs, ip, o);
  }

  // ----- what a router advertises -----

  function StubLsa(iface: Iface): Lsa {
    Lsa(iface.ip & iface.mask, iface.mask, 0)
  }

  function NbrLsa(n: Nbr): Lsa {
    Lsa(n.ip & n.mask, n.mask, n.id)
  }

  /** One LSA per neighbour, or one stub for an interface without neighbours. */
  ghost function IfaceAdvert(iface: Iface): seq<Lsa> {
    if iface.nbrs == [] then [StubLsa(iface)]
    else seq(|iface.nbrs|, j requires 0 <= j < |iface.nbrs| => NbrLsa(iface.nbrs[j]))
  }

  /** All LSAs of the first `k` interfaces, in order. */
  ghost function Advert(ifaces: seq<Iface>, k: nat): seq<Lsa>
    requires k <= |ifaces|
  {
    if k == 0 then [] else Advert(ifaces, k - 1) + IfaceAdvert(ifaces[k - 1])
  }

  /** What an interface contributes: its own network with router id 0, or the network and the router id
      of some neighbour. */
  ghost predicate Contributes(iface: Iface, l: Lsa) {
    if iface.nbrs == [] then l.subnet == iface.ip & iface.mask && l.mask == iface.mask && l.rid == 0
    else exists j :: 0 <= j < |iface.nbrs| && IsLsaOf(l, iface.nbrs[j])
  }

  ghost predicate IsLsaOf(l: Lsa, n: Nbr) {
    l.subnet == n.ip & n.mask && l.mask == n.mask && l.rid == n.id
  }

  lemma IfaceAdvertMeaning(iface: Iface, l: Lsa)
    ensures l in IfaceAdvert(iface) <==> Contributes(iface, l)
  {
    if iface.nbrs != [] && Contributes(iface, l) {
      var j :| 0 <= j < |iface.nbrs| && IsLsaOf(l, iface.nbrs[j]);
      assert IfaceAdvert(iface)[j] == l;
    }
  }

  lemma InEither(a: seq<Lsa>, b: seq<Lsa>, l: Lsa)
    ensures l in a + b <==> l in a || l in b
  {
  }

  lemma {:induction false} AdvertMeaning(ifaces: seq<Iface>, k: nat, l: Lsa)
    requires k <= |ifaces|
    ensures l in Advert(ifaces, k) <==> exists i :: 0 <= i < k && Contributes(ifaces[i], l)
  {
    if k > 0 {
      AdvertMeaning(ifaces, k - 1, l);
      IfaceAdvertMeaning(ifaces[k - 1], l);
      InEither(Advert(ifaces, k - 1), IfaceAdvert(ifaces[k - 1]), l);
    }
  }

  ghost predicate HasNeighbour(ifaces: seq<Iface>, id: nat) {
    exists i, j :: 0 <= i < |ifaces| && 0 <= j < |ifaces[i].nbrs| && ifaces[i].nbrs[j].id == id
  }

  /** A stored advertisement links its router to exactly the routers it has as neighbours. */
  lemma AdvertisedLinks(ifaces: seq<Iface>, e: DbEntry, a: nat, b: nat)
    requires e.lsas == Advert(ifaces, |ifaces|) && e.nadv == |e.lsas|
    ensures (a, b) in EntryLinks(e, e.nadv) <==> a == e.rid && b != 0 && HasNeighbour(ifaces, b)
  {
    EntryLinksMeaning(e, e.nadv, a, b);
    if j :| 0 <= j < e.nadv && e.lsas[j].rid == b {
      AdvertMeaning(ifaces, |ifaces|, e.lsas[j]);
    }
    if HasNeighbour(ifaces, b) {
      var i, j :| 0 <= i < |ifaces| && 0 <= j < |ifaces[i].nbrs| && ifaces[i].nbrs[j].id == b;
      AdvertMeaning(ifaces, |ifaces|, NbrLsa(ifaces[i].nbrs[j]));
      assert Contributes(ifaces[i], NbrLsa(ifaces[i].nbrs[j]));
    }
  }

  // ----- storing an update -----

  ghost predicate HasEntry(db: seq<DbEntry>, rid: nat) {
    exists k :: 0 <= k < |db| && db[k].rid == rid
  }

  /** A newer update replaces the array of its router's entry and renews the time, but leaves `seq` and
      `nadv` as they are. */
  function Replaced(e: DbEntry, u: Lsu, now: int): DbEntry {
    if e.rid == u.rid && e.seqNum < u.seqNum then e.(lsas := u.lsas, addTime := now) else e
  }

  ghost function Stored(db: seq<DbEntry>, u: Lsu, now: int): seq<DbEntry> {
    if HasEntry(db, u.rid) then seq(|db|, k requires 0 <= k < |db| => Replaced(db[k], u, now))
    else db + [DbEntry(u.rid, u.seqNum, |u.lsas|, u.lsas, now)]
  }

  lemma StoredKeepsDistinct(self: nat, db: seq<DbEntry>, u: Lsu, now: int)
    requires Distinct(self, db) && u.rid != self
    ensures Distinct(self, Stored(db, u, now))
  {
  }

  predicate Stale(addTime: int, now: int) {
    now - addTime >= DATABASE_TIMEOUT
  }

  /** One pass of `checking_database_thread`. */
  ghost function Fresh(db: seq<DbEntry>, now: int): seq<DbEntry> {
    if db == [] then []
    else
      var last := db[|db| - 1];
      Fresh(db[..|db| - 1], now) + if Stale(last.addTime, now) then [] else [last]
  }

  lemma {:induction false} FreshMeaning(db: seq<DbEntry>, now: int, e: DbEntry)
    ensures e in Fresh(db, now) <==> e in db && !Stale(e.addTime, now)
  {
    if db != [] {
      var m := |db| - 1;
      FreshMeaning(db[..m], now, e);
      assert db == db[..m] + [db[m]];
    }
  }

  lemma {:induction false} FreshKeepsDistinct(self: nat, db: seq<DbEntry>, now: int)
    requires Distinct(self, db)
    ensures Distinct(self, Fresh(db, now))
  {
    if db != [] {
      var m := |db| - 1;
      FreshKeepsDistinct(self, db[..m], now);
      forall k | 0 <= k < |Fresh(db[..m], now)| ensures Fresh(db[..m], now)[k].rid != db[m].rid {
        FreshMeaning(db[..m], now, Fresh(db[..m], now)[k]);
      }
    }
  }

  /** What can happen to the database: an update arrives, or the ageing pass runs. */
  datatype DbEvent = Update(u: Lsu, now: int) | Check(now: int)

  ghost function DbNext(self: nat, db: seq<DbEntry>, e: DbEvent): seq<DbEntry> {
    match e
    case Update(u, now) => if u.rid == self then db else Stored(db, u, now)
    case Check(now) => Fresh(db, now)
  }

  ghost function DbAfter(self: nat, es: seq<DbEvent>): seq<DbEntry> {
    if es == [] then [] else DbNext(self, DbAfter(self, es[..|es| - 1]), es[|es| - 1])
  }

  /** Whatever updates arrive and whenever entries are dropped, the database has one entry per router and
      none for its owner. */
  lemma {:induction false} DatabaseStaysDistinct(self: nat, es: seq<DbEvent>)
    ensures Distinct(self, DbAfter(self, es))
  {
    if es != [] {
      var db := DbAfter(self, es[..|es| - 1]);
      DatabaseStaysDistinct(self, es[..|es| - 1]);
      match es[|es| - 1]
      case Update(u, now) => if u.rid != self { StoredKeepsDistinct(self, db, u, now); }
      case Check(now) => FreshKeepsDistinct(self, db, now);
    }
  }

  /** An update and the time it arrived. */
  datatype Stamped = Stamped(u: Lsu, at: int)

  /** The update whose array the entry of a router holds: the last one above the first, if any. */
  ghost function Held(o: seq<Stamped>): (h: Stamped)
    requires o != []
    ensures h in o
  {
    if |o| == 1 then o[0]
    else if o[|o| - 1].u.seqNum > o[0].u.seqNum then o[|o| - 1]
    else
      assert o[..|o| - 1][0] == o[0];
      Held(o[..|o| - 1])
  }

  /** The updates of router `r` since its entry was made: none if there is no entry, because no update has
      come or an ageing pass found the one held too old. */
  ghost function Since(es: seq<DbEvent>, r: nat): seq<Stamped> {
    if es == [] then [] else SinceNext(Since(es[..|es| - 1], r), es[|es| - 1], r)
  }

  ghost function SinceNext(o: seq<Stamped>, e: DbEvent, r: nat): seq<Stamped> {
    match e
    case Update(u, now) => if u.rid == r then o + [Stamped(u, now)] else o
    case Check(now) => if o != [] && Stale(Held(o).at, now) then [] else o
  }

  /** What the database holds about router `r`, whose entry was made and changed by the updates `o`. */
  ghost predicate Records(db: seq<DbEntry>, r: nat, o: seq<Stamped>) {
    if o == [] then !HasEntry(db, r)
    else
      && HasEntry(db, r)
      && forall k :: 0 <= k < |db| && db[k].rid == r ==> db[k] == EntryOf(r, o)
  }

  ghost function EntryOf(r: nat, o: seq<Stamped>): DbEntry
    requires o != []
  {
    DbEntry(r, o[0].u.seqNum, |o[0].u.lsas|, Held(o).u.lsas, Held(o).at)
  }

  lemma StoredRecords(db: seq<DbEntry>, r: nat, o: seq<Stamped>, u: Lsu, now: int)
    requires Records(db, r, o)
    ensures Records(Stored(db, u, now), r, if u.rid == r then o + [Stamped(u, now)] else o)
  {
    var s := Stored(db, u, now);
    if HasEntry(db, r) {
      var k :| 0 <= k < |db| && db[k].rid == r;
      assert s[k].rid == r;
    }
    if u.rid == r {
      var all := o + [Stamped(u, now)];
      assert all[..|all| - 1] == o;
      if o == [] { assert s[|db|].rid == r; }
      forall k | 0 <= k < |s| && s[k].rid == r ensures s[k] == EntryOf(r, all) {
        if k < |db| { assert db[k].rid == r; }
      }
    } else {
      forall k | 0 <= k < |s| && s[k].rid == r ensures k < |db| && s[k] == db[k] {
      }
    }
  }

  lemma FreshRecords(db: seq<DbEntry>, r: nat, o: seq<Stamped>, now: int)
    requires Records(db, r, o)
    ensures Records(Fresh(db, now), r, if o != [] && Stale(Held(o).at, now) then [] else o)
  {
    var s := Fresh(db, now);
    forall k | 0 <= k < |s| && s[k].rid == r
      ensures o != [] && s[k] == EntryOf(r, o) && !Stale(Held(o).at, now)
    {
      FreshMeaning(db, now, s[k]);
      var i :| 0 <= i < |db| && db[i] == s[k];
    }
    if o != [] && !Stale(Held(o).at, now) {
      var i :| 0 <= i < |db| && db[i].rid == r;
      FreshMeaning(db, now, db[i]);
      var k :| 0 <= k < |s| && s[k] == db[i];
    }
  }

  /** For every history of updates and ageing passes: a router has an entry exactly if an update of it has
      come since the entry was last dropped, and the entry has the sequence number and count of the first
      such update, and array and time of the last one above that number. */
  lemma {:induction false} EntryHolds(self: nat, r: nat, es: seq<DbEvent>)
    requires r != self
    ensures Records(DbAfter(self, es), r, Since(es, r))
  {
    if es != [] {
      var m := |es| - 1;
      EntryHolds(self, r, es[..m]);
      var db, o := DbAfter(self, es[..m]), Since(es[..m], r);
      match es[m]
      case Update(u, now) => StoredRecords(db, r, o, u, now);
      case Check(now) => FreshRecords(db, r, o, now);
    }
  }

  ghost predicate Newest(o: seq<Stamped>, h: Stamped) {
    forall v :: v in o ==> v.u.seqNum <= h.u.seqNum
  }

  /** An entry that holds the newest array of its time is dropped by an ageing pass that finds it too old;
      apart from that it goes on holding the newest exactly when the next event is not an update of its
      router that arrives late, above the first update and below the newest. */
  lemma StaysNewest(es: seq<DbEvent>, r: nat, e: DbEvent)
    requires Since(es, r) != [] && Newest(Since(es, r), Held(Since(es, r)))
    ensures var o, next := Since(es, r), Since(es + [e], r);
            && (next == [] <==> e.Check? && Stale(Held(o).at, e.now))
            && (next != [] ==>
                  (Newest(next, Held(next)) <==>
                   !(e.Update? && e.u.rid == r && o[0].u.seqNum < e.u.seqNum < Held(o).u.seqNum)))
  {
    var o := Since(es, r);
    assert (es + [e])[..|es|] == es;
    if e.Update? && e.u.rid == r {
      var s := Stamped(e.u, e.now);
      var all := o + [s];
      assert all[..|all| - 1] == o && all[0] == o[0] && s in all;
      assert o[0] in o;
      assert forall v :: v in all <==> v in o || v == s;
    }
  }

  // ----- how long an entry lasts that is not renewed -----

  /** All updates of router `r` among the events are numbered at most `first`. */
  ghost predicate NoneAbove(es: seq<DbEvent>, r: nat, first: nat) {
    forall i :: 0 <= i < |es| && es[i].Update? && es[i].u.rid == r ==> es[i].u.seqNum <= first
  }

  /** No ageing pass among the events finds an entry of this time too old. */
  ghost predicate NoneStale(es: seq<DbEvent>, at: int) {
    forall i :: 0 <= i < |es| && es[i].Check? ==> !Stale(at, es[i].now)
  }

  lemma {:induction false} IgnoredSince(es: seq<DbEvent>, more: seq<DbEvent>, r: nat)
    requires Since(es, r) != []
    requires NoneAbove(more, r, Since(es, r)[0].u.seqNum) && NoneStale(more, Held(Since(es, r)).at)
    ensures var o, next := Since(es, r), Since(es + more, r);
            next != [] && next[0] == o[0] && Held(next) == Held(o)
  {
    if more == [] {
      assert es + more == es;
    } else {
      var m := |more| - 1;
      IgnoredSince(es, more[..m], r);
      assert (es + more)[..|es + more| - 1] == es + more[..m] && (es + more)[|es + more| - 1] == more[m];
      var o := Since(es + more[..m], r);
      if more[m].Update? && more[m].u.rid == r {
        var all := o + [Stamped(more[m].u, more[m].now)];
        assert all[..|all| - 1] == o && all[0] == o[0];
      }
    }
  }

  /** An entry of which all updates are ignored stays as it is until the first ageing pass 35 seconds or
      more after its last renewal, which drops it; the next update, whatever its number, makes a new one. */
  lemma StaleEntryLasts(self: nat, r: nat, es: seq<DbEvent>, more: seq<DbEvent>, now: int, u: Lsu, at: int)
    requires r != self && Since(es, r) != [] && u.rid == r
    requires NoneAbove(more, r, Since(es, r)[0].u.seqNum) && NoneStale(more, Held(Since(es, r)).at)
    requires Stale(Held(Since(es, r)).at, now)
    ensures Records(DbAfter(self, es + more), r, Since(es, r))
    ensures !HasEntry(DbAfter(self, es + more + [Check(now)]), r)
    ensures Records(DbAfter(self, es + more + [Check(now)] + [Update(u, at)]), r, [Stamped(u, at)])
  {
    var o, a := Since(es, r), es + more;
    IgnoredSince(es, more, r);
    EntryHolds(self, r, a);
    assert EntryOf(r, Since(a, r)) == EntryOf(r, o);
    var b := a + [Check(now)];
    assert b[..|b| - 1] == a;
    EntryHolds(self, r, b);
    var c := b + [Update(u, at)];
    assert c[..|c| - 1] == b;
    EntryHolds(self, r, c);
    assert Since(c, r) == [Stamped(u, at)];
  }

  /** The updates of a router among the events, in order. */
  ghost function UpdatesOf(es: seq<DbEvent>, r: nat): seq<Lsu> {
    if es == [] then []
    else
      var e := es[|es| - 1];
      UpdatesOf(es[..|es| - 1], r) + if e.Update? && e.u.rid == r then [e.u] else []
  }

  lemma {:induction false} UpdatesOfMeaning(es: seq<DbEvent>, r: nat, i: nat)
    requires i < |es| && es[i].Update? && es[i].u.rid == r
    ensures es[i].u in UpdatesOf(es, r)
  {
    if i < |es| - 1 { UpdatesOfMeaning(es[..|es| - 1], r, i); }
  }

  /** Consecutive numbers from `first` on, without wrap-around. */
  ghost predicate NumberedFrom(o: seq<Stamped>, first: nat) {
    forall i :: 0 <= i < |o| ==> o[i].u.seqNum == first + i
  }

  /** The 16-bit wrap-around, all updates of a router arriving in order and without loss: an entry made at
      number `first` holds 65535 and ignores the numbers 0 to at most `first` that follow, until the first
      ageing pass 35 seconds or more after 65535 arrived drops it and the next update makes a new one. */
  lemma WrapEndsEntry(self: nat, r: nat, es: seq<DbEvent>, more: seq<DbEvent>, first: nat, now: int, u: Lsu, at: int)
    requires r != self && u.rid == r && first < SEQ_NUMBERS
    requires |Since(es, r)| == SEQ_NUMBERS - first && NumberedFrom(Since(es, r), first)
    requires |UpdatesOf(more, r)| <= first + 1
    requires forall i :: 0 <= i < |UpdatesOf(more, r)| ==> UpdatesOf(more, r)[i].seqNum == i
    requires NoneStale(more, Since(es, r)[|Since(es, r)| - 1].at)
    requires Stale(Since(es, r)[|Since(es, r)| - 1].at, now)
    ensures var o := Since(es, r);
            && Held(o) == o[|o| - 1] && Held(o).u.seqNum == SEQ_NUMBERS - 1
            && Records(DbAfter(self, es + more), r, o)
            && !HasEntry(DbAfter(self, es + more + [Check(now)]), r)
            && Records(DbAfter(self, es + more + [Check(now)] + [Update(u, at)]), r, [Stamped(u, at)])
  {
    var o := Since(es, r);
    assert o[|o| - 1].u.seqNum == SEQ_NUMBERS - 1 && o[0].u.seqNum == first;
    forall i | 0 <= i < |more| && more[i].Update? && more[i].u.rid == r ensures more[i].u.seqNum <= first {
      UpdatesOfMeaning(more, r, i);
    }
    StaleEntryLasts(self, r, es, more, now, u, at);
  }

  /** Updates 1, 3, 2 in this order leave the array of update 2. */
  lemma LateUpdateWins(r: nat, a: seq<Lsa>, b: seq<Lsa>, c: seq<Lsa>, t: int)
    ensures var es := [Update(Lsu(r, 1, 255, a), t), Update(Lsu(r, 3, 255, b), t), Update(Lsu(r, 2, 255, c), t)];
            Since(es, r) != [] && Held(Since(es, r)).u.lsas == c
  {
    var u, v, w := Update(Lsu(r, 1, 255, a), t), Update(Lsu(r, 3, 255, b), t), Update(Lsu(r, 2, 255, c), t);
    var one, two, three := [u], [u, v], [u, v, w];
    assert one[..|one| - 1] == [] && two[..|two| - 1] == one && three[..|three| - 1] == two;
    assert Since(one, r) == [Stamped(u.u, t)];
    assert Since(two, r) == [Stamped(u.u, t), Stamped(v.u, t)];
    assert Since(three, r) == [Stamped(u.u, t), Stamped(v.u, t), Stamped(w.u, t)];
  }

  /** An update that replaces an array by one shorter than the count that stays behind. */
  ghost predicate Shrinks(db: seq<DbEntry>, u: Lsu) {
    exists k :: 0 <= k < |db| && db[k].rid == u.rid && db[k].seqNum < u.seqNum && |u.lsas| < db[k].nadv
  }

  /** Storing an update keeps every array as long as its count exactly when the update does not shrink one. */
  lemma StoredInBounds(db: seq<DbEntry>, u: Lsu, now: int)
    requires InBounds(db)
    ensures InBounds(Stored(db, u, now)) <==> !Shrinks(db, u)
  {
    var r := Stored(db, u, now);
    if Shrinks(db, u) {
      var k :| 0 <= k < |db| && db[k].rid == u.rid && db[k].seqNum < u.seqNum && |u.lsas| < db[k].nadv;
      assert HasEntry(db, u.rid) && r[k].nadv > |r[k].lsas|;
    } else {
      forall k | 0 <= k < |r| ensures r[k].nadv <= |r[k].lsas| {
        if k < |db| { assert db[k].nadv <= |db[k].lsas|; }
      }
    }
  }

  /** A router that first advertises two links and then one leaves a count past the end of its array. */
  lemma ShrinkingUpdateBreaksBounds(a: Lsa, b: Lsa, t: int)
    ensures !InBounds(DbAfter(1, [Update(Lsu(2, 0, 255, [a, b]), t), Update(Lsu(2, 1, 255, [a]), t)]))
  {
    var u, v := Lsu(2, 0, 255, [a, b]), Lsu(2, 1, 255, [a]);
    var one, two := [Update(u, t)], [Update(u, t), Update(v, t)];
    assert one[..|one| - 1] == [] && two[..|two| - 1] == one;
    var first := DbAfter(1, one);
    assert DbAfter(1, one[..|one| - 1]) == [];
    assert first == Stored([], u, t);
    assert first == [DbEntry(2, 0, 2, [a, b], t)] by { assert !HasEntry([], 2); }
    assert DbAfter(1, two) == Stored(first, v, t);
    assert Shrinks(first, v) by { assert first[0].rid == v.rid; }
    StoredInBounds(first, v, t);
  }

  // ----- forwarding an update -----

  /** The `u8` decrement. */
  function Decrement(ttl: nat): nat {
    (ttl + 255) % 256
  }

  ghost function IfaceCopies(iface: Iface, u: Lsu): seq<Copy> {
    seq(|iface.nbrs|, j requires 0 <= j < |iface.nbrs| => Copy(iface.index, iface.nbrs[j].ip, u))
  }

  /** Copies to the neighbours on the first `k` interfaces, except the one the update came in on, if any. */
  ghost function Copies(ifaces: seq<Iface>, k: nat, from: Option<nat>, u: Lsu): seq<Copy>
    requires k <= |ifaces|
  {
    if k == 0 then []
    else if Some(ifaces[k - 1].index) == from then Copies(ifaces, k - 1, from, u)
    else Copies(ifaces, k - 1, from, u) + IfaceCopies(ifaces[k - 1], u)
  }

  /** Exactly the neighbours on the other interfaces get a copy. */
  lemma {:induction false} CopiesMeaning(ifaces: seq<Iface>, k: nat, from: Option<nat>, u: Lsu, c: Copy)
    requires k <= |ifaces|
    ensures c in Copies(ifaces, k, from, u) <==>
            c.lsu == u && Some(c.via) != from &&
            exists i :: 0 <= i < k && ifaces[i].index == c.via && Knows(ifaces[i].nbrs, c.dst)
  {
    if k > 0 {
      CopiesMeaning(ifaces, k - 1, from, u, c);
      var iface := ifaces[k - 1];
      if c.lsu == u && iface.index == c.via && Knows(iface.nbrs, c.dst) {
        var j :| 0 <= j < |iface.nbrs| && iface.nbrs[j].ip == c.dst;
        assert IfaceCopies(iface, u)[j] == c;
      }
    }
  }

  /** What a router sends out when an update arrives. */
  ghost function Forwarded(self: nat, ifaces: seq<Iface>, inIndex: nat, u: Lsu): seq<Copy> {
    if u.rid == self || Decrement(u.ttl) == 0 then []
    else Copies(ifaces, |ifaces|, Some(inIndex), u.(ttl := Decrement(u.ttl)))
  }

  class Daemon {
    const routerId: nat
    var sequenceNum: nat
    var ifaces: seq<Iface>
    var db: seq<DbEntry>

    /** `mospf_lock` is held by nobody who will release it. Every operation takes the lock first, so
        none goes through from then on. */
    var stuck: bool

    ghost predicate Valid()
      reads this
    {
      AllCounted(ifaces) && Distinct(routerId, db) && sequenceNum < SEQ_NUMBERS
    }

    constructor (routerId: nat, ifaces: seq<Iface>)
      requires forall k :: 0 <= k < |ifaces| ==> ifaces[k].numNbr == 0 && ifaces[k].nbrs == []
      ensures Valid() && this.routerId == routerId && this.ifaces == ifaces && db == [] && sequenceNum == 0 && !stuck
    {
      this.routerId := routerId;
      this.ifaces := ifaces;
      db := [];
      sequenceNum := 0;
      stuck := false;
    }

    method HandleHello(at: nat, h: Hello)
      requires Valid() && !stuck && at < |ifaces|
      modifies this`ifaces
      ensures Valid() && ifaces == Apply(old(ifaces), HelloArrives(at, h))
    {
      var iface := ifaces[at];
      var nbrs := iface.nbrs;
      var flag := false;
      for i := 0 to |nbrs|
        invariant |nbrs| == |iface.nbrs|
        invariant flag <==> exists j :: 0 <= j < i && iface.nbrs[j].ip == h.ip
        invariant forall j :: 0 <= j < |nbrs| ==>
          nbrs[j] == if j < i && iface.nbrs[j].ip == h.ip then iface.nbrs[j].(alive := 0) else iface.nbrs[j]
      {
        if nbrs[i].ip == h.ip {
          flag := true;
          nbrs := nbrs[i := nbrs[i].(alive := 0)];
        }
      }
      HeardKeepsCount(iface, h);
      if flag {
        iface := iface.(nbrs := nbrs);
      } else {
        assert nbrs == iface.nbrs;
        iface := iface.(nbrs := nbrs + [Nbr(h.rid, h.ip, h.mask, 0)], numNbr := iface.numNbr + 1);
      }
      assert iface == Heard(ifaces[at], h);
      ifaces := ifaces[at := iface];
    }

    method AgeIface(iface: Iface) returns (r: Iface)
      ensures r == AgedIface(iface)
    {
      var kept, count := [], iface.numNbr;
      for i := 0 to |iface.nbrs|
        invariant kept == Aged(iface.nbrs[..i])
        invariant count == iface.numNbr - (i - |kept|)
      {
        assert iface.nbrs[..i + 1][..i] == iface.nbrs[..i];
        if iface.nbrs[i].alive > 3 * HELLO_INTERVAL {
          count := count - 1;
        } else {
          kept := kept + [iface.nbrs[i].(alive := iface.nbrs[i].alive + 1)];
        }
      }
      assert iface.nbrs[..|iface.nbrs|] == iface.nbrs;
      r := iface.(nbrs := kept, numNbr := count);
    }

    method CheckNeighbours()
      requires Valid() && !stuck
      modifies this`ifaces
      ensures Valid() && ifaces == Apply(old(ifaces), Tick)
    {
      for k := 0 to |ifaces|
        invariant |ifaces| == |old(ifaces)|
        invariant forall j :: 0 <= j < |ifaces| ==>
          ifaces[j] == if j < k then AgedIface(old(ifaces)[j]) else old(ifaces)[j]
      {
        var r := AgeIface(ifaces[k]);
        ifaces := ifaces[k := r];
      }
      forall k | 0 <= k < |ifaces| ensures Counted(ifaces[k]) {
        AgedKeepsCount(old(ifaces)[k]);
      }
    }

    /** The counting loop of `sending_mospf_lsu_thread`: exactly as many LSAs as will be written. */
    method CountAdverts() returns (numAdv: int)
      requires Valid()
      ensures numAdv == |Advert(ifaces, |ifaces|)|
    {
      numAdv := 0;
      for k := 0 to |ifaces|
        invariant numAdv == |Advert(ifaces, k)|
      {
        AdvertStep(ifaces, k);
        assert Counted(ifaces[k]);
        if ifaces[k].numNbr == 0 {
          numAdv := numAdv + 1;
        } else {
          numAdv := numAdv + ifaces[k].numNbr;
        }
      }
    }

    /** Writes the LSAs of one interface into the packet from slot `i` on. */
    static method PackIface(packet: array<Lsa>, iface: Iface, i: nat) returns (next: nat)
      requires Counted(iface) && i + |IfaceAdvert(iface)| <= packet.Length
      modifies packet
      ensures next == i + |IfaceAdvert(iface)|
      ensures packet[..next] == old(packet[..i]) + IfaceAdvert(iface)
    {
      next := i;
      ghost var was := packet[..i];
      if iface.numNbr == 0 {
        packet[next] := StubLsa(iface);
        next := next + 1;
        return;
      }
      for j := 0 to |iface.nbrs|
        invariant next == i + j
        invariant packet[..next] == was + IfaceAdvert(iface)[..j]
      {
        packet[next] := NbrLsa(iface.nbrs[j]);
        next := next + 1;
        assert packet[..next] == packet[..next - 1] + [NbrLsa(iface.nbrs[j])];
      }
    }

    /** The packing loop: the LSA region is filled from the first slot to the last. */
    static method PackAll(packet: array<Lsa>, fs: seq<Iface>)
      requires AllCounted(fs) && packet.Length == |Advert(fs, |fs|)|
      modifies packet
      ensures packet[..] == Advert(fs, |fs|)
    {
      var i := 0;
      for k := 0 to |fs|
        invariant i == |Advert(fs, k)| <= packet.Length && packet[..i] == Advert(fs, k)
      {
        AdvertFits(fs, k);
        i := PackIface(packet, fs[k], i);
      }
      assert packet[..i] == packet[..];
    }

    /** LSU packing: the LSA region is filled exactly, and a fresh update starts with the full TTL. */
    method BuildLsu() returns (u: Lsu)
      requires Valid()
      ensures u.lsas == Advert(ifaces, |ifaces|)
      ensures u == Lsu(routerId, sequenceNum, MAX_LSU_TTL, u.lsas)
    {
      var numAdv := CountAdverts();
      var packet := new Lsa[numAdv](_ => Lsa(0, 0, 0));
      PackAll(packet, ifaces);
      u := Lsu(routerId, sequenceNum, MAX_LSU_TTL, packet[..]);
    }

    /** The database loop of `handle_mospf_lsu`. */
    method StoreLsu(u: Lsu, now: int)
      requires Valid() && u.rid != routerId
      modifies this`db
      ensures Valid() && db == Stored(old(db), u, now)
    {
      StoredKeepsDistinct(routerId, db, u, now);
      var flag := false;
      for k := 0 to |db|
        invariant |db| == |old(db)|
        invariant flag <==> exists j :: 0 <= j < k && old(db)[j].rid == u.rid
        invariant forall j :: 0 <= j < |db| ==> db[j] == if j < k then Replaced(old(db)[j], u, now) else old(db)[j]
      {
        if u.rid == db[k].rid && db[k].seqNum >= u.seqNum {
          flag := true;
        } else if u.rid == db[k].rid && db[k].seqNum < u.seqNum {
          flag := true;
          db := db[k := db[k].(lsas := u.lsas, addTime := now)];
        }
      }
      if !flag {
        assert db == old(db);
        db := db + [DbEntry(u.rid, u.seqNum, |u.lsas|, u.lsas, now)];
      }
    }

    /** One pass of `checking_database_thread`. */
    method CheckDatabase(now: int)
      requires Valid() && !stuck
      modifies this`db
      ensures Valid() && db == DbNext(routerId, old(db), Check(now))
    {
      var kept := [];
      for k := 0 to |db|
        invariant db == old(db) && kept == Fresh(db[..k], now)
      {
        assert db[..k + 1][..k] == db[..k];
        if !(now - db[k].addTime >= DATABASE_TIMEOUT) {
          kept := kept + [db[k]];
        }
      }
      assert db[..|db|] == db;
      FreshKeepsDistinct(routerId, db, now);
      db := kept;
    }

    method CopyToNeighbours(iface: Iface, u: Lsu) returns (copies: seq<Copy>)
      ensures copies == IfaceCopies(iface, u)
    {
      copies := [];
      for j := 0 to |iface.nbrs|
        invariant copies == IfaceCopies(iface, u)[..j]
      {
        copies := copies + [Copy(iface.index, iface.nbrs[j].ip, u)];
      }
    }

    /** One round of `sending_mospf_lsu_thread`: the update goes to every neighbour on every interface,
        and the 16-bit sequence number moves on. */
    method SendLsu() returns (u: Lsu, out: seq<Copy>)
      requires Valid() && !stuck
      modifies this`sequenceNum
      ensures Valid() && sequenceNum == (old(sequenceNum) + 1) % SEQ_NUMBERS
      ensures u == Lsu(routerId, old(sequenceNum), MAX_LSU_TTL, Advert(ifaces, |ifaces|))
      ensures out == Copies(ifaces, |ifaces|, None, u)
    {
      u := BuildLsu();
      out := [];
      for k := 0 to |ifaces|
        invariant sequenceNum == old(sequenceNum) && out == Copies(ifaces, k, None, u)
      {
        var more := CopyToNeighbours(ifaces[k], u);
        out := out + more;
      }
      sequenceNum := (sequenceNum + 1) % SEQ_NUMBERS;
    }

    /** `handle_mospf_lsu`: on the router's own update it returns without releasing the lock. */
    method HandleLsu(inIndex: nat, u: Lsu, now: int) returns (out: seq<Copy>)
      requires Valid() && !stuck
      modifies this`db, this`stuck
      ensures Valid() && out == Forwarded(routerId, ifaces, inIndex, u)
      ensures stuck == (u.rid == routerId)
      ensures db == DbNext(routerId, old(db), Update(u, now))
    {
      out := [];
      if routerId == u.rid {
        stuck := true;
        return;
      }
      StoreLsu(u, now);
      var ttl := (u.ttl + 255) % 256;
      if ttl > 0 {
        for k := 0 to |ifaces|
          invariant Valid() && !stuck && db == Stored(old(db), u, now)
          invariant out == Copies(ifaces, k, Some(inIndex), u.(ttl := ttl))
        {
          if ifaces[k].index != inIndex {
            var more := CopyToNeighbours(ifaces[k], u.(ttl := ttl));
            out := out + more;
          }
        }
      }
    }
  }

  lemma AdvertStep(ifaces: seq<Iface>, k: nat)
    requires k < |ifaces|
    ensures Advert(ifaces, k + 1) == Advert(ifaces, k) + IfaceAdvert(ifaces[k])
    ensures |IfaceAdvert(ifaces[k])| == if ifaces[k].nbrs == [] then 1 else |ifaces[k].nbrs|
  {
  }

  lemma {:induction false} AdvertGrows(ifaces: seq<Iface>, k: nat)
    requires k <= |ifaces|
    ensures |Advert(ifaces, k)| <= |Advert(ifaces, |ifaces|)|
    decreases |ifaces| - k
  {
    if k < |ifaces| { AdvertGrows(ifaces, k + 1); }
  }

  lemma AdvertFits(ifaces: seq<Iface>, k: nat)
    requires k < |ifaces| && AllCounted(ifaces)
    ensures Counted(ifaces[k]) && Advert(ifaces, k + 1) == Advert(ifaces, k) + IfaceAdvert(ifaces[k])
    ensures |Advert(ifaces, k)| + |IfaceAdvert(ifaces[k])| == |Advert(ifaces, k + 1)| <= |Advert(ifaces, |ifaces|)|
  {
    AdvertGrows(ifaces, k + 1);
  }

  /** The links of a database with one entry more. */
  lemma NewEntryLinks(db: seq<DbEntry>, e: DbEntry, b: nat)
    requires InBounds(db) && e.nadv == |e.lsas| && !HasEntry(db, e.rid)
    ensures InBounds(db + [e]) && ((e.rid, b) in Links(db + [e]) <==> (e.rid, b) in EntryLinks(e, e.nadv))
  {
    assert (db + [e])[..|db|] == db;
    LinksMeaning(db, e.rid, b);
  }

  /** From one router's tables to another router's database: an update packed by `a`, arriving at a
      router with no entry for `a`, is stored as one LSA per neighbour of `a` plus its stubs, in order, and
      links `a` to exactly the routers in its tables. */
  method AdvertiseAndStore(a: Daemon, b: Daemon, inIndex: nat, now: int)
    requires a != b && a.Valid() && b.Valid() && !a.stuck && !b.stuck
    requires a.routerId != b.routerId && !HasEntry(b.db, a.routerId)
    modifies a`sequenceNum, b`db, b`stuck
    ensures !b.stuck && b.Valid() && |b.db| == |old(b.db)| + 1 && b.db[..|old(b.db)|] == old(b.db)
    ensures b.db[|old(b.db)|].rid == a.routerId
    ensures b.db[|old(b.db)|].lsas == Advert(a.ifaces, |a.ifaces|)
    ensures b.db[|old(b.db)|].nadv == |Advert(a.ifaces, |a.ifaces|)|
    ensures InBounds(old(b.db)) ==>
            InBounds(b.db) && forall r: nat :: (a.routerId, r) in Links(b.db) <==> r != 0 && HasNeighbour(a.ifaces, r)
  {
    var u, _ := a.SendLsu();
    ghost var was := b.db;
    var _ := b.HandleLsu(inIndex, u, now);
    ghost var e := b.db[|was|];
    assert b.db == was + [e];
    if InBounds(was) {
      forall r: nat ensures InBounds(b.db) && ((a.routerId, r) in Links(b.db) <==> r != 0 && HasNeighbour(a.ifaces, r)) {
        NewEntryLinks(was, e, r);
        AdvertisedLinks(a.ifaces, e, a.routerId, r);
      }
    }
  }

  /** From a hello to a link: a router heard for the first time at `a` is a link of `a` in the database of
      whoever gets the next update of `a`. */
  method HearAdvertiseAndStore(a: Daemon, b: Daemon, at: nat, h: Hello, inIndex: nat, now: int)
    requires a != b && a.Valid() && b.Valid() && !a.stuck && !b.stuck
    requires a.routerId != b.routerId && !HasEntry(b.db, a.routerId) && InBounds(b.db)
    requires at < |a.ifaces| && !Knows(a.ifaces[at].nbrs, h.ip) && h.rid != 0
    modifies a`ifaces, a`sequenceNum, b`db, b`stuck
    ensures InBounds(b.db) && (a.routerId, h.rid) in Links(b.db)
  {
    HeardNew(a.ifaces[at], h);
    a.HandleHello(at, h);
    assert HasNeighbour(a.ifaces, h.rid) by {
      var j :| 0 <= j < |a.ifaces[at].nbrs| && a.ifaces[at].nbrs[j] == Nbr(h.rid, h.ip, h.mask, 0);
      assert a.ifaces[at].nbrs[j].id == h.rid;
    }
    AdvertiseAndStore(a, b, inIndex, now);
  }
}
