/** Route lookup in the two-bit prefix trie and in its compressed form with vectors of leaves and
    children indexed by rank. */
module Lookup {
  import opened Wrappers

  const WORD := 0x1_0000_0000

  datatype Entry = Entry(subnet: nat, preLen: nat, port: nat)

  const BLANK := Entry(0, 0, 0)

  /** A node of the trie with four child slots. */
  datatype Trie = Trie(entry: Entry, kids: seq<Option<Trie>>)

  /** A node of the compressed trie: leaves and children in two vectors, and four bits to tell which. */
  datatype CvTree = CvTree(notLeaf: seq<bool>, leaves: seq<Entry>, kids: seq<CvTree>)

  predicate IsLeaf(t: Trie) {
    |t.kids| == 4 && t.kids[0].None? && t.kids[1].None? && t.kids[2].None? && t.kids[3].None?
  }

  /** Four slots everywhere. */
  ghost predicate WellFormed(t: Trie) {
    |t.kids| == 4 && forall i :: 0 <= i < 4 && t.kids[i].Some? ==> WellFormed(t.kids[i].value)
  }

  ghost predicate HasAllKids(t: Trie)
    requires |t.kids| == 4
  {
    forall i :: 0 <= i < 4 ==> t.kids[i].Some?
  }

  /** Every node has no child or all four. */
  ghost predicate Full(t: Trie) {
    && |t.kids| == 4 && (IsLeaf(t) || HasAllKids(t))
    && forall i :: 0 <= i < 4 && t.kids[i].Some? ==> Full(t.kids[i].value)
  }

  /** No prefix is longer than 32 bits. */
  ghost predicate ShortPrefixes(t: Trie) {
    t.entry.preLen <= 32 && forall i :: 0 <= i < |t.kids| && t.kids[i].Some? ==> ShortPrefixes(t.kids[i].value)
  }

  lemma {:induction false} FullIsWellFormed(t: Trie)
    requires Full(t)
    ensures WellFormed(t)
  {
    forall i | 0 <= i < 4 && t.kids[i].Some? ensures WellFormed(t.kids[i].value) {
      FullIsWellFormed(t.kids[i].value);
    }
  }

  // ----- bits -----

  /** `(tmp & 0xc0000000) >> 30` and `tmp << 2` on 32-bit words. */
  function Slot(tmp: nat): (s: nat)
    requires tmp < WORD
    ensures s < 4
  {
    tmp / 0x4000_0000
  }

  function Shifted(tmp: nat): (r: nat)
    ensures r < WORD
  {
    tmp * 4 % WORD
  }

  /** `a >> n`. */
  function Shr(a: nat, n: nat): nat {
    if n == 0 then a else Shr(a, n - 1) / 2
  }

  lemma {:induction false} ShrAgree(a: nat, b: nat, m: nat, n: nat)
    requires m <= n && Shr(a, m) == Shr(b, m)
    ensures Shr(a, n) == Shr(b, n)
    decreases n
  {
    if m < n { ShrAgree(a, b, m, n - 1); }
  }

  /** The leading `len` bits of the address are those of the subnet. */
  ghost predicate PrefixMatches(e: Entry, ip: nat)
    requires e.preLen <= 32
  {
    e.preLen == 0 || Shr(e.subnet, 32 - e.preLen) == Shr(ip, 32 - e.preLen)
  }

  // ----- search in the trie -----

  /** The deepest node on the path the address takes. */
  ghost function Deepest(t: Trie, tmp: nat): Trie
    requires WellFormed(t) && tmp < WORD
    decreases t
  {
    var k := t.kids[Slot(tmp)];
    if k.None? then t else Deepest(k.value, Shifted(tmp))
  }

  ghost function Found(t: Trie, ip: nat): Entry
    requires WellFormed(t) && ip < WORD
  {
    var q := Deepest(t, ip);
    if q.entry.preLen <= 32 && PrefixMatches(q.entry, ip) then q.entry else t.entry
  }

  lemma {:induction false} DeepestShort(t: Trie, tmp: nat)
    requires WellFormed(t) && tmp < WORD && ShortPrefixes(t)
    ensures Deepest(t, tmp).entry.preLen <= 32
    decreases t
  {
    var k := t.kids[Slot(tmp)];
    if k.Some? { DeepestShort(k.value, Shifted(tmp)); }
  }

  /** The bit-counting loop of `MulPTree::Search`. Once all 32 bits of a 32-bit prefix agree it compares
      after shifts by -1, which C++ leaves undefined: `odd` is what that comparison yields, and the
      outcome is the same for both values. */
  method CountBits(e: Entry, ip: nat, odd: bool) returns (bite: nat)
    requires e.preLen <= 32
    ensures bite < e.preLen <==> !PrefixMatches(e, ip)
  {
    bite := 0;
    var i := 0;
    while i <= e.preLen
      invariant 0 <= i <= e.preLen + 1 && bite == i
      invariant i == 33 ==> Shr(e.subnet, 0) == Shr(ip, 0)
      invariant 0 < i <= 32 ==> Shr(e.subnet, 32 - i) == Shr(ip, 32 - i)
    {
      var agree := if i == 32 then odd else Shr(e.subnet, 31 - i) == Shr(ip, 31 - i);
      if agree {
        bite := bite + 1;
      } else {
        if i < e.preLen && PrefixMatches(e, ip) {
          ShrAgree(e.subnet, ip, 32 - e.preLen, 31 - i);
        }
        break;
      }
      i := i + 1;
    }
    if bite >= e.preLen > 0 {
      if bite > e.preLen && bite <= 32 {
        ShrAgree(e.subnet, ip, 32 - bite, 32 - e.preLen);
      }
    }
  }

  /** `MulPTree::Search`: the deepest node's entry if its prefix covers the address, else the root's. */
  method MulSearch(root: Trie, ip: nat, odd: bool) returns (e: Entry)
    requires WellFormed(root) && ShortPrefixes(root) && ip < WORD
    ensures e == Found(root, ip)
  {
    var pos, q, tmp: nat := Some(root), root, ip;
    while pos.Some?
      invariant tmp < WORD && WellFormed(q)
      invariant pos.Some? ==> WellFormed(pos.value) && Deepest(pos.value, tmp) == Deepest(root, ip)
      invariant pos.None? ==> q == Deepest(root, ip)
      decreases pos
    {
      var loc := Slot(tmp);
      q := pos.value;
      pos := pos.value.kids[loc];
      tmp := Shifted(tmp);
    }
    DeepestShort(root, ip);
    var bite := CountBits(q.entry, ip, odd);
    if bite < q.entry.preLen {
      return root.entry;
    }
    return q.entry;
  }

  // ----- compression -----

  /** Whether each child slot holds an inner node. */
  function InnerSlot(t: Trie, i: nat): bool
    requires WellFormed(t) && i < 4
  {
    t.kids[i].Some? && !IsLeaf(t.kids[i].value)
  }

  function NotLeafBits(t: Trie): (r: seq<bool>)
    requires WellFormed(t)
    ensures |r| == 4
  {
    [InnerSlot(t, 0), InnerSlot(t, 1), InnerSlot(t, 2), InnerSlot(t, 3)]
  }

  /** The entries of the leaf children among the first `k`, in order. */
  ghost function LeafVec(t: Trie, k: nat): seq<Entry>
    requires WellFormed(t) && k <= 4
  {
    if k == 0 then []
    else if t.kids[k - 1].Some? && IsLeaf(t.kids[k - 1].value) then LeafVec(t, k - 1) + [t.kids[k - 1].value.entry]
    else LeafVec(t, k - 1)
  }

  /** The inner children among the first `k`, compressed, in order. */
  ghost function ChildVec(t: Trie, k: nat): seq<CvTree>
    requires WellFormed(t) && k <= 4
    decreases t, k
  {
    if k == 0 then []
    else if InnerSlot(t, k - 1) then ChildVec(t, k - 1) + [Compress(t.kids[k - 1].value)]
    else ChildVec(t, k - 1)
  }

  /** `ConstructCVTree`: nothing but the bits is filled in where a child is missing. */
  ghost function Compress(t: Trie): CvTree
    requires WellFormed(t)
    decreases t, 5
  {
    if HasAllKids(t) then CvTree(NotLeafBits(t), LeafVec(t, 4), ChildVec(t, 4))
    else CvTree(NotLeafBits(t), [], [])
  }

  /** `CVTree::Count`: the rank of a slot among the inner ones. */
  ghost function Rank(bits: seq<bool>, loc: nat): (r: nat)
    requires loc <= |bits|
    ensures r <= loc
  {
    if loc == 0 then 0 else Rank(bits, loc - 1) + if bits[loc - 1] then 1 else 0
  }

  method Count(bits: seq<bool>, loc: nat) returns (num: nat)
    requires |bits| == 4
    ensures num == Rank(bits, if loc < 4 then loc else 4)
  {
    num := 0;
    var i := 0;
    while i != loc && i != 4
      invariant 0 <= i <= 4 && i <= loc && num == Rank(bits, i)
      decreases 4 - i
    {
      num := num + if bits[i] then 1 else 0;
      i := i + 1;
    }
  }

  /** The vectors of the first `k` slots: one child per inner slot, one leaf for each of the others. */
  lemma {:induction false} VectorSizes(t: Trie, k: nat)
    requires WellFormed(t) && HasAllKids(t) && k <= 4
    ensures |ChildVec(t, k)| == Rank(NotLeafBits(t), k)
    ensures |LeafVec(t, k)| == k - Rank(NotLeafBits(t), k)
  {
    if k > 0 { VectorSizes(t, k - 1); }
  }

  /** Rank indexing: a slot's child or leaf sits where `Count` says. */
  lemma {:induction false} RankIndex(t: Trie, loc: nat, k: nat)
    requires WellFormed(t) && HasAllKids(t) && loc < k <= 4
    ensures var r := Rank(NotLeafBits(t), loc);
            if InnerSlot(t, loc) then r < |ChildVec(t, k)| && ChildVec(t, k)[r] == Compress(t.kids[loc].value)
            else loc - r < |LeafVec(t, k)| && LeafVec(t, k)[loc - r] == t.kids[loc].value.entry
    decreases k
  {
    VectorSizes(t, k - 1);
    if loc + 1 < k { RankIndex(t, loc, k - 1); }
  }

  /** One pass over the children, collecting the leaves or building the compressed inner nodes. */
  method CollectLeaves(t: Trie, haveLeaf: nat) returns (leaves: seq<Entry>)
    requires WellFormed(t) && HasAllKids(t) && haveLeaf == |LeafVec(t, 4)|
    ensures leaves == LeafVec(t, 4)
  {
    leaves := [];
    var i, j := 0, 0;
    while i != 4 && j != haveLeaf
      invariant 0 <= i <= 4 && j == |leaves| <= haveLeaf && leaves == LeafVec(t, i)
      decreases 4 - i
    {
      LeafVecGrows(t, i + 1);
      if t.kids[i].Some? && IsLeaf(t.kids[i].value) {
        leaves := leaves + [t.kids[i].value.entry];
        j := j + 1;
      }
      i := i + 1;
    }
    LeafVecGrows(t, i);
  }

  lemma {:induction false} LeafVecGrows(t: Trie, k: nat)
    requires WellFormed(t) && k <= 4
    ensures LeafVec(t, k) <= LeafVec(t, 4)
    decreases 4 - k
  {
    if k < 4 { LeafVecGrows(t, k + 1); }
  }

  lemma {:induction false} ChildVecGrows(t: Trie, k: nat)
    requires WellFormed(t) && k <= 4
    ensures ChildVec(t, k) <= ChildVec(t, 4)
    decreases 4 - k
  {
    if k < 4 { ChildVecGrows(t, k + 1); }
  }

  /** `ConstructCVTree`: it succeeds exactly on nodes with four children; the results of the calls
      for inner children are ignored, as the source ignores them. */
  method ConstructCvTree(t: Trie) returns (ok: bool, cv: CvTree)
    requires WellFormed(t)
    ensures ok <==> HasAllKids(t)
    ensures cv == Compress(t)
    decreases t
  {
    var haveChild, haveLeaf, bits := CountKids(t);
    if haveLeaf + haveChild != 4 {
      return false, CvTree(bits, [], []);
    }
    VectorSizes(t, 4);
    var leaves := CollectLeaves(t, haveLeaf);
    var kids := [];
    var i, j := 0, 0;
    while i != 4 && j != haveChild
      invariant 0 <= i <= 4 && j == |kids| <= haveChild && kids == ChildVec(t, i)
      decreases 4 - i
    {
      ChildVecGrows(t, i + 1);
      if InnerSlot(t, i) {
        var _, kid := ConstructCvTree(t.kids[i].value);
        kids := kids + [kid];
        j := j + 1;
      }
      i := i + 1;
    }
    ChildVecGrows(t, i);
    return true, CvTree(bits, leaves, kids);
  }

  method CountKids(t: Trie) returns (haveChild: nat, haveLeaf: nat, bits: seq<bool>)
    requires WellFormed(t)
    ensures bits == NotLeafBits(t)
    ensures haveChild + haveLeaf == 4 <==> HasAllKids(t)
    ensures HasAllKids(t) ==> haveChild == Rank(bits, 4) && haveLeaf == 4 - Rank(bits, 4)
  {
    haveChild, haveLeaf := 0, 0;
    bits := [false, false, false, false];
    for i := 0 to 4
      invariant |bits| == 4 && forall j :: 0 <= j < 4 ==> bits[j] == (j < i && InnerSlot(t, j))
      invariant haveChild == Rank(NotLeafBits(t), i) && haveChild + haveLeaf <= i
      invariant haveChild + haveLeaf == i <==> forall j :: 0 <= j < i ==> t.kids[j].Some?
    {
      if t.kids[i].Some? && !IsLeaf(t.kids[i].value) {
        bits := bits[i := true];
        haveChild := haveChild + 1;
      }
      if t.kids[i].Some? && IsLeaf(t.kids[i].value) {
        haveLeaf := haveLeaf + 1;
      }
    }
  }

  // ----- search in the compressed trie -----

  /** Every inner slot has its child and every other slot its leaf, at every level. */
  ghost predicate Indexable(cv: CvTree) {
    && |cv.notLeaf| == 4 && |cv.kids| == Rank(cv.notLeaf, 4) && |cv.leaves| == 4 - Rank(cv.notLeaf, 4)
    && forall k :: 0 <= k < |cv.kids| ==> Indexable(cv.kids[k])
  }

  lemma {:induction false} RankBound(bits: seq<bool>, loc: nat, k: nat)
    requires loc < k <= |bits|
    ensures if bits[loc] then Rank(bits, loc) < Rank(bits, k) else loc - Rank(bits, loc) < k - Rank(bits, k)
    decreases k
  {
    if loc + 1 < k { RankBound(bits, loc, k - 1); }
  }

  /** The leaf the walk through a compressed trie ends at. */
  ghost function CvLeaf(cv: CvTree, tmp: nat): Entry
    requires Indexable(cv) && tmp < WORD
    decreases cv
  {
    var loc := Slot(tmp);
    RankBound(cv.notLeaf, loc, 4);
    if cv.notLeaf[loc] then CvLeaf(cv.kids[Rank(cv.notLeaf, loc)], Shifted(tmp))
    else cv.leaves[loc - Rank(cv.notLeaf, loc)]
  }

  lemma {:induction false} CompressIndexable(t: Trie)
    requires Full(t) && WellFormed(t) && !IsLeaf(t)
    ensures Indexable(Compress(t))
    decreases t, 5
  {
    VectorSizes(t, 4);
    ChildrenIndexable(t, 4);
  }

  lemma {:induction false} ChildrenIndexable(t: Trie, k: nat)
    requires Full(t) && WellFormed(t) && k <= 4
    ensures forall i :: 0 <= i < |ChildVec(t, k)| ==> Indexable(ChildVec(t, k)[i])
    decreases t, k
  {
    if k > 0 {
      ChildrenIndexable(t, k - 1);
      if InnerSlot(t, k - 1) { CompressIndexable(t.kids[k - 1].value); }
    }
  }

  /** Both walks end at the same leaf. */
  lemma {:induction false} SameLeaf(t: Trie, tmp: nat)
    requires Full(t) && WellFormed(t) && !IsLeaf(t) && tmp < WORD
    ensures Indexable(Compress(t)) && CvLeaf(Compress(t), tmp) == Deepest(t, tmp).entry
    decreases t
  {
    CvLeafStep(t, tmp);
    var loc := Slot(tmp);
    var kid := t.kids[loc].value;
    if InnerSlot(t, loc) {
      SameLeaf(kid, Shifted(tmp));
    } else {
      assert Deepest(kid, Shifted(tmp)) == kid;
    }
  }

  /** One step of the walk through a compressed trie, said of the trie it came from. */
  lemma CvLeafStep(t: Trie, tmp: nat)
    requires Full(t) && WellFormed(t) && !IsLeaf(t) && tmp < WORD
    ensures Indexable(Compress(t))
    ensures var kid := t.kids[Slot(tmp)].value;
            if InnerSlot(t, Slot(tmp)) then
              Indexable(Compress(kid)) && CvLeaf(Compress(t), tmp) == CvLeaf(Compress(kid), Shifted(tmp))
            else CvLeaf(Compress(t), tmp) == kid.entry
  {
    var loc := Slot(tmp);
    CompressIndexable(t);
    RankIndex(t, loc, 4);
    assert NotLeafBits(t)[loc] == InnerSlot(t, loc);
    if InnerSlot(t, loc) { CompressIndexable(t.kids[loc].value); }
  }

  /** The prefix check of `CVTree::Search`. */
  method PrefixAgrees(e: Entry, ip: nat) returns (r: bool)
    requires e.preLen <= 32
    ensures r <==> PrefixMatches(e, ip)
  {
    var i := 1;
    while i != e.preLen + 1
      invariant 1 <= i <= e.preLen + 1
      invariant i > 1 ==> Shr(e.subnet, 33 - i) == Shr(ip, 33 - i)
    {
      if Shr(e.subnet, 32 - i) != Shr(ip, 32 - i) {
        if PrefixMatches(e, ip) {
          ShrAgree(e.subnet, ip, 32 - e.preLen, 32 - i);
        }
        return false;
      }
      i := i + 1;
    }
    return true;
  }

  ghost function CvFound(cv: CvTree, ip: nat): Entry
    requires Indexable(cv) && ip < WORD
  {
    var e := CvLeaf(cv, ip);
    if e.preLen <= 32 && PrefixMatches(e, ip) then e else BLANK
  }

  /** `CVTree::Search`: the leaf's entry if its prefix covers the address, else a blank leaf. */
  method CvSearch(cv: CvTree, ip: nat) returns (e: Entry)
    requires Indexable(cv) && ip < WORD && CvLeaf(cv, ip).preLen <= 32
    ensures e == CvFound(cv, ip)
  {
    var pos, tmp: nat := cv, ip;
    var loc := Slot(tmp);
    while pos.notLeaf[loc]
      invariant Indexable(pos) && tmp < WORD && loc == Slot(tmp)
      invariant CvLeaf(pos, tmp) == CvLeaf(cv, ip)
      decreases pos
    {
      RankBound(pos.notLeaf, loc, 4);
      var c := Count(pos.notLeaf, loc);
      pos := pos.kids[c];
      tmp := Shifted(tmp);
      loc := Slot(tmp);
    }
    RankBound(pos.notLeaf, loc, 4);
    var c := Count(pos.notLeaf, loc);
    e := pos.leaves[loc - c];
    var fits := PrefixAgrees(e, ip);
    if !fits {
      e := BLANK;
    }
  }

  /** The compressed form answers an address as the trie does exactly when the root entry is blank or
      the leaf's prefix covers the address: for a miss one returns a blank leaf, the other the root. */
  lemma CompressedSearchAgrees(t: Trie, ip: nat)
    requires Full(t) && ShortPrefixes(t) && !IsLeaf(t) && ip < WORD
    ensures WellFormed(t) && Indexable(Compress(t)) && Deepest(t, ip).entry.preLen <= 32
    ensures CvFound(Compress(t), ip) == Found(t, ip) <==>
            t.entry == BLANK || PrefixMatches(Deepest(t, ip).entry, ip)
  {
    FullIsWellFormed(t);
    SameLeaf(t, ip);
    DeepestShort(t, ip);
  }

  /** A root with an entry of its own and four leaves that cover address 2 alone: looking up address 0,
      the trie answers with the root's entry and the compressed form with a blank leaf. */
  lemma MissesDiffer()
    ensures var leaf := Some(Trie(Entry(2, 32, 7), [None, None, None, None]));
            var t := Trie(Entry(8, 1, 9), [leaf, leaf, leaf, leaf]);
            && Full(t) && ShortPrefixes(t) && !IsLeaf(t) && WellFormed(t) && Indexable(Compress(t))
            && Found(t, 0) == Entry(8, 1, 9) && CvFound(Compress(t), 0) == BLANK
  {
    var e := Entry(2, 32, 7);
    var leaf := Trie(e, [None, None, None, None]);
    var t := Trie(Entry(8, 1, 9), [Some(leaf), Some(leaf), Some(leaf), Some(leaf)]);
    assert Full(leaf) && ShortPrefixes(leaf);
    FullIsWellFormed(t);
    SameLeaf(t, 0);
    assert Deepest(leaf, Shifted(0)) == leaf;
    assert Deepest(t, 0) == leaf && !PrefixMatches(e, 0);
  }

  /** `ConstructCVTree` returns true for the node and in every call it makes below it. */
  ghost predicate BuildsThroughout(t: Trie)
    requires WellFormed(t)
  {
    HasAllKids(t) && forall i :: 0 <= i < 4 && InnerSlot(t, i) ==> BuildsThroughout(t.kids[i].value)
  }

  /** Compression succeeds at every level exactly on full tries. */
  lemma {:induction false} BuildsExactlyFull(t: Trie)
    requires WellFormed(t) && !IsLeaf(t)
    ensures BuildsThroughout(t) <==> Full(t)
  {
    forall i | 0 <= i < 4 && InnerSlot(t, i) ensures BuildsThroughout(t.kids[i].value) <==> Full(t.kids[i].value) {
      BuildsExactlyFull(t.kids[i].value);
    }
    forall i | 0 <= i < 4 && t.kids[i].Some? && IsLeaf(t.kids[i].value) ensures Full(t.kids[i].value) {
    }
  }
}
