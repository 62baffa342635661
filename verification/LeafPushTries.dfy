/** Leaf pushing said of tries as values: what the shared carriers end up holding, and when that is what
    the slots they fill should have inherited. */
module LeafPushTries {
  import opened Wrappers
  import opened Lookup

  /** The entry below a node: its own unless that is blank. */
  function Taken(own: Entry, e: Entry): Entry {
    if own.subnet != 0 then own else e
  }

  /** What a carrier that holds `e` holds after its first `k` children have been pushed with it. */
  ghost function LastOver(t: Trie, k: nat, e: Entry): Entry
    requires WellFormed(t) && k <= 4
    decreases t, k
  {
    if k == 0 then e
    else if t.kids[k - 1].Some? then Last(t.kids[k - 1].value, LastOver(t, k - 1, e))
    else LastOver(t, k - 1, e)
  }

  /** What a carrier that holds `e` holds after `t` has been pushed with it: a node with all four children
      passes it on, a node that lacks one keeps it. */
  ghost function Last(t: Trie, e: Entry): Entry
    requires WellFormed(t)
    decreases t, 5
  {
    if IsLeaf(t) then e
    else if HasAllKids(t) then LastOver(t, 4, Taken(t.entry, e))
    else Taken(t.entry, e)
  }

  const EMPTY: seq<Option<Trie>> := [None, None, None, None]

  /** The trie after pushing with a carrier that holds `e` when the call starts and `fin` in the end. The
      children of a node that lacks one are pushed with a copy of their own. */
  ghost function PushTrie(t: Trie, e: Entry, fin: Entry): Trie
    requires WellFormed(t)
    decreases t, 1
  {
    if IsLeaf(t) then t
    else
      var b := Taken(t.entry, e);
      var below := if HasAllKids(t) then fin else LastOver(t, 4, b);
      Trie(t.entry, [PushSlot(t, 0, b, fin, below), PushSlot(t, 1, b, fin, below),
                     PushSlot(t, 2, b, fin, below), PushSlot(t, 3, b, fin, below)])
  }

  ghost function PushSlot(t: Trie, i: nat, b: Entry, fin: Entry, below: Entry): Option<Trie>
    requires WellFormed(t) && i < 4
    decreases t, 0
  {
    if t.kids[i].Some? then Some(PushTrie(t.kids[i].value, LastOver(t, i, b), below)) else Some(Trie(fin, EMPTY))
  }

  /** `MleafPush` called on a whole trie with a blank carrier. */
  ghost function PushAll(t: Trie): Trie
    requires WellFormed(t)
  {
    PushTrie(t, BLANK, Last(t, BLANK))
  }

  // ----- what every pushed trie is -----

  /** `b` is `a` with a leaf in every empty slot of every inner node; leaves of `a` are untouched. */
  ghost predicate Filled(a: Trie, b: Trie) {
    && |a.kids| == |b.kids| == 4 && a.entry == b.entry
    && (IsLeaf(a) ==> b == a)
    && (!IsLeaf(a) ==> forall i :: 0 <= i < 4 ==>
          && b.kids[i].Some?
          && if a.kids[i].Some? then Filled(a.kids[i].value, b.kids[i].value) else IsLeaf(b.kids[i].value))
  }

  lemma {:induction false} FilledIsFull(a: Trie, b: Trie)
    requires Filled(a, b)
    ensures Full(b)
  {
    if !IsLeaf(a) {
      forall i | 0 <= i < 4 ensures Full(b.kids[i].value) {
        if a.kids[i].Some? { FilledIsFull(a.kids[i].value, b.kids[i].value); }
      }
    }
  }

  lemma {:induction false} PushFills(t: Trie, e: Entry, fin: Entry)
    requires WellFormed(t)
    ensures Filled(t, PushTrie(t, e, fin))
    decreases t
  {
    if !IsLeaf(t) {
      var b := Taken(t.entry, e);
      var below := if HasAllKids(t) then fin else LastOver(t, 4, b);
      forall i | 0 <= i < 4
        ensures PushTrie(t, e, fin).kids[i] == PushSlot(t, i, b, fin, below)
        ensures t.kids[i].Some? ==> Filled(t.kids[i].value, PushTrie(t.kids[i].value, LastOver(t, i, b), below))
      {
        if t.kids[i].Some? { PushFills(t.kids[i].value, LastOver(t, i, b), below); }
      }
    }
  }

  /** A trie with an inner root becomes full, and can be compressed at every level. */
  lemma PushBuilds(t: Trie)
    requires WellFormed(t) && !IsLeaf(t)
    ensures Filled(t, PushAll(t)) && Full(PushAll(t)) && WellFormed(PushAll(t)) && !IsLeaf(PushAll(t)) && BuildsThroughout(PushAll(t))
  {
    PushFills(t, BLANK, Last(t, BLANK));
    FilledIsFull(t, PushAll(t));
    FullIsWellFormed(PushAll(t));
    BuildsExactlyFull(PushAll(t));
  }

  // ----- what the slots should hold -----

  /** Every empty slot of an inner node gets the nearest entry above it that is not blank. */
  ghost function Inherit(t: Trie, e: Entry): Trie
    requires WellFormed(t)
    decreases t, 1
  {
    if IsLeaf(t) then t
    else
      var b := Taken(t.entry, e);
      Trie(t.entry, [InheritSlot(t, 0, b), InheritSlot(t, 1, b), InheritSlot(t, 2, b), InheritSlot(t, 3, b)])
  }

  ghost function InheritSlot(t: Trie, i: nat, b: Entry): Option<Trie>
    requires WellFormed(t) && i < 4
    decreases t, 0
  {
    if t.kids[i].Some? then Some(Inherit(t.kids[i].value, b)) else Some(Trie(b, EMPTY))
  }

  /** The last entry that is not blank on the path of an address, or the entry of the leaf it ends at. */
  ghost function Along(t: Trie, tmp: nat, e: Entry): Entry
    requires WellFormed(t) && tmp < WORD
    decreases t
  {
    if IsLeaf(t) then t.entry
    else
      var k := t.kids[Slot(tmp)];
      if k.None? then Taken(t.entry, e) else Along(k.value, Shifted(tmp), Taken(t.entry, e))
  }

  /** With inherited entries the deepest node tells the last entry on the path. */
  lemma {:induction false} InheritedIsFound(t: Trie, tmp: nat, e: Entry)
    requires WellFormed(t) && tmp < WORD
    ensures WellFormed(Inherit(t, e)) && Deepest(Inherit(t, e), tmp).entry == Along(t, tmp, e)
    decreases t
  {
    if !IsLeaf(t) {
      var b, i := Taken(t.entry, e), Slot(tmp);
      forall j | 0 <= j < 4
        ensures Inherit(t, e).kids[j] == InheritSlot(t, j, b)
        ensures t.kids[j].Some? ==> WellFormed(Inherit(t.kids[j].value, b))
      {
        if t.kids[j].Some? { InheritedIsFound(t.kids[j].value, tmp, b); }
      }
      var kid := Inherit(t, e).kids[i].value;
      if t.kids[i].Some? {
        InheritedIsFound(t.kids[i].value, Shifted(tmp), b);
      } else {
        assert Deepest(kid, Shifted(tmp)) == kid;
      }
    }
  }

  /** Every node that lacks a child finds in the end, in the carrier it filled its slots with, the entry
      they should inherit: `ideal` is what is inherited, `run` what the carrier holds on arrival. */
  ghost predicate Agreed(t: Trie, ideal: Entry, run: Entry, fin: Entry)
    requires WellFormed(t)
    decreases t
  {
    IsLeaf(t) ||
    (var b := Taken(t.entry, run);
     && (HasAllKids(t) || fin == Taken(t.entry, ideal))
     && forall i :: 0 <= i < 4 && t.kids[i].Some? ==>
          Agreed(t.kids[i].value, Taken(t.entry, ideal), LastOver(t, i, b), if HasAllKids(t) then fin else LastOver(t, 4, b)))
  }

  /** Pushing gives every slot the entry it should inherit exactly when no carrier ends up with another one. */
  lemma {:induction false} WhenPushInherits(t: Trie, ideal: Entry, run: Entry, fin: Entry)
    requires WellFormed(t)
    ensures PushTrie(t, run, fin) == Inherit(t, ideal) <==> Agreed(t, ideal, run, fin)
    decreases t
  {
    if !IsLeaf(t) {
      var p, q, b, c := PushTrie(t, run, fin), Inherit(t, ideal), Taken(t.entry, run), Taken(t.entry, ideal);
      var below := if HasAllKids(t) then fin else LastOver(t, 4, b);
      forall i | 0 <= i < 4
        ensures p.kids[i] == PushSlot(t, i, b, fin, below) && q.kids[i] == InheritSlot(t, i, c)
        ensures p.kids[i] == q.kids[i] <==>
                if t.kids[i].Some? then Agreed(t.kids[i].value, c, LastOver(t, i, b), below) else fin == c
      {
        if t.kids[i].Some? { WhenPushInherits(t.kids[i].value, c, LastOver(t, i, b), below); }
      }
      assert p == q <==> forall i :: 0 <= i < 4 ==> p.kids[i] == q.kids[i];
      if !HasAllKids(t) { var i :| 0 <= i < 4 && t.kids[i].None?; }
    }
  }

  /** No node has more than one child that has children itself. */
  ghost predicate OneInnerChild(t: Trie)
    requires WellFormed(t)
  {
    && (forall i, j :: 0 <= i < j < 4 ==> !(InnerSlot(t, i) && InnerSlot(t, j)))
    && (forall i :: 0 <= i < 4 && t.kids[i].Some? ==> OneInnerChild(t.kids[i].value))
  }

  /** Leaves leave the carrier alone, so that only child `i` can change it. */
  lemma {:induction false} OnlyInner(t: Trie, i: nat, k: nat, b: Entry)
    requires WellFormed(t) && i < 4 && k <= 4 && t.kids[i].Some?
    requires forall j :: 0 <= j < 4 && InnerSlot(t, j) ==> j == i
    ensures LastOver(t, k, b) == if i < k then Last(t.kids[i].value, b) else b
    decreases k
  {
    if k > 0 {
      OnlyInner(t, i, k - 1, b);
      if k - 1 != i { assert !InnerSlot(t, k - 1); }
    }
  }

  /** Where no node has two inner children, nothing is shared and every slot gets what it should inherit. */
  lemma {:induction false} OneInnerChildInherits(t: Trie, e: Entry)
    requires WellFormed(t) && OneInnerChild(t)
    ensures Agreed(t, e, e, Last(t, e))
    decreases t
  {
    if !IsLeaf(t) {
      var b := Taken(t.entry, e);
      forall i | 0 <= i < 4 && t.kids[i].Some?
        ensures Agreed(t.kids[i].value, b, LastOver(t, i, b), LastOver(t, 4, b))
      {
        if !IsLeaf(t.kids[i].value) {
          assert InnerSlot(t, i);
          OnlyInner(t, i, i, b);
          OnlyInner(t, i, 4, b);
          OneInnerChildInherits(t.kids[i].value, b);
        }
      }
    }
  }

  function LeafOf(e: Entry): Option<Trie> {
    Some(Trie(e, EMPTY))
  }

  function Half(own: Entry, e: Entry): Option<Trie> {
    Some(Trie(own, [LeafOf(e), None, None, None]))
  }

  lemma HalfPushed(own: Entry, l: Entry, e: Entry, fin: Entry)
    ensures var t := Half(own, l).value;
            && WellFormed(t) && !IsLeaf(t) && !HasAllKids(t) && Last(t, e) == Taken(own, e)
            && PushTrie(t, e, fin) == Trie(own, [LeafOf(l), LeafOf(fin), LeafOf(fin), LeafOf(fin)])
  {
    var t, leaf := Half(own, l).value, LeafOf(l).value;
    assert WellFormed(leaf) && IsLeaf(leaf);
    var b := Taken(own, e);
    var below := LastOver(t, 4, b);
    assert PushTrie(leaf, b, below) == leaf;
    assert PushSlot(t, 0, b, fin, below) == LeafOf(l) && PushSlot(t, 1, b, fin, below) == LeafOf(fin);
  }

  lemma HalfInherits(own: Entry, l: Entry, e: Entry)
    ensures var t, b := Half(own, l).value, Taken(own, e);
            WellFormed(t) && Inherit(t, e) == Trie(own, [LeafOf(l), LeafOf(b), LeafOf(b), LeafOf(b)])
  {
    var t, leaf, b := Half(own, l).value, LeafOf(l).value, Taken(own, e);
    assert WellFormed(leaf) && IsLeaf(leaf) && !IsLeaf(t);
    assert Inherit(leaf, b) == leaf;
    assert InheritSlot(t, 0, b) == LeafOf(l) && InheritSlot(t, 1, b) == LeafOf(b);
  }

  /** A root with entry `a` and four children, of which the first two lack children and the second has entry
      `c`: the empty slots below the first child end with `c`, although `a` is the entry above them. */
  lemma SharedCarrierMisleads(a: Entry, c: Entry, l: Entry)
    requires a.subnet != 0 && c.subnet != 0
    ensures var t := Trie(a, [Half(BLANK, l), Half(c, l), LeafOf(l), LeafOf(l)]);
            && WellFormed(t) && |PushAll(t).kids| == 4
            && PushAll(t).kids[0] == Some(Trie(BLANK, [LeafOf(l), LeafOf(c), LeafOf(c), LeafOf(c)]))
            && Inherit(t, BLANK).kids[0] == Some(Trie(BLANK, [LeafOf(l), LeafOf(a), LeafOf(a), LeafOf(a)]))
  {
    var t := Trie(a, [Half(BLANK, l), Half(c, l), LeafOf(l), LeafOf(l)]);
    var leaf := LeafOf(l).value;
    assert WellFormed(leaf) && IsLeaf(leaf) && Last(leaf, c) == c;
    HalfPushed(BLANK, l, a, c);
    HalfPushed(c, l, a, c);
    HalfInherits(BLANK, l, a);
    assert HasAllKids(t) && !IsLeaf(t);
    assert LastOver(t, 0, a) == a && LastOver(t, 1, a) == a && LastOver(t, 2, a) == c;
    assert LastOver(t, 3, a) == c && LastOver(t, 4, a) == c == Last(t, BLANK);
    assert PushAll(t).kids[0] == PushSlot(t, 0, a, c, c);
    assert Inherit(t, BLANK).kids[0] == InheritSlot(t, 0, a);
  }
}
