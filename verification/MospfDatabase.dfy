/** The link-state database of the mOSPF daemon and the links it advertises. */
module MospfDatabase {

  datatype Lsa = Lsa(subnet: bv32, mask: bv32, rid: nat)

  /** A database entry. `nadv` is stored separately from the array it is meant to measure. */
  datatype DbEntry = DbEntry(rid: nat, seqNum: nat, nadv: nat, lsas: seq<Lsa>, addTime: int)

  /** One entry per router and none for the router that owns the database. */
  ghost predicate Distinct(self: nat, db: seq<DbEntry>) {
    && (forall k :: 0 <= k < |db| ==> db[k].rid != self)
    && (forall j, k :: 0 <= j < k < |db| ==> db[j].rid != db[k].rid)
  }

  /** Every array is at least as long as its recorded count. */
  ghost predicate InBounds(db: seq<DbEntry>) {
    forall k :: 0 <= k < |db| ==> db[k].nadv <= |db[k].lsas|
  }

  /** The links (advertising router, neighbour) among the first `i` LSAs of an entry; rid 0 marks a stub. */
  ghost function EntryLinks(e: DbEntry, i: nat): set<(nat, nat)>
    requires i <= |e.lsas|
  {
    if i == 0 then {}
    else if e.lsas[i - 1].rid == 0 then EntryLinks(e, i - 1)
    else EntryLinks(e, i - 1) + {(e.rid, e.lsas[i - 1].rid)}
  }

  ghost function Links(db: seq<DbEntry>): set<(nat, nat)>
    requires InBounds(db)
  {
    if db == [] then {}
    else Links(db[..|db| - 1]) + EntryLinks(db[|db| - 1], db[|db| - 1].nadv)
  }

  lemma LinksStep(db: seq<DbEntry>, k: nat)
    requires InBounds(db) && k < |db|
    ensures InBounds(db[..k]) && InBounds(db[..k + 1])
    ensures Links(db[..k + 1]) == Links(db[..k]) + EntryLinks(db[k], db[k].nadv)
  {
    assert db[..k + 1][..k] == db[..k];
  }

  ghost predicate Linked(links: set<(nat, nat)>, a: nat, b: nat) {
    (a, b) in links || (b, a) in links
  }

  /** What the recursive definition collects, said directly. */
  lemma {:induction false} EntryLinksMeaning(e: DbEntry, i: nat, a: nat, b: nat)
    requires i <= |e.lsas|
    ensures (a, b) in EntryLinks(e, i) <==>
            a == e.rid && b != 0 && exists j :: 0 <= j < i && e.lsas[j].rid == b
  {
    if i > 0 { EntryLinksMeaning(e, i - 1, a, b); }
  }

  lemma {:induction false} LinksMeaning(db: seq<DbEntry>, a: nat, b: nat)
    requires InBounds(db)
    ensures (a, b) in Links(db) <==>
            exists k, j :: 0 <= k < |db| && 0 <= j < db[k].nadv &&
                           db[k].rid == a && b != 0 && db[k].lsas[j].rid == b
  {
    if db != [] {
      var m := |db| - 1;
      LinksMeaning(db[..m], a, b);
      EntryLinksMeaning(db[m], db[m].nadv, a, b);
    }
  }

  ghost predicate EntryKnown(nodes: seq<nat>, e: DbEntry)
    requires e.nadv <= |e.lsas|
  {
    forall j :: 0 <= j < e.nadv ==> e.lsas[j].rid == 0 || e.lsas[j].rid in nodes
  }

  /** Every advertised neighbour is this router or a router with an entry of its own. */
  ghost predicate NamesKnownRouters(self: nat, db: seq<DbEntry>)
    requires InBounds(db)
  {
    forall k :: 0 <= k < |db| ==> EntryKnown(Nodes(self, db), db[k])
  }

  /** Node 0 is this router, node k + 1 the router of entry k. */
  function Nodes(self: nat, db: seq<DbEntry>): (nodes: seq<nat>)
    ensures |nodes| == |db| + 1
  {
    [self] + seq(|db|, k requires 0 <= k < |db| => db[k].rid)
  }
}
