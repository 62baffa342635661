/** Leaf pushing on the two-bit trie, in place: empty child slots are filled with a carrier node that
    calls share and keep changing. */
module LeafPush {
  import opened Wrappers
  import L = Lookup
  import opened LeafPushTries

  class Node {
    var subnet: nat
    var preLen: nat
    var port: nat
    var kids: seq<Node?>  // mChild[4]

    constructor (subnet: nat, preLen: nat, port: nat)
      ensures this.subnet == subnet && this.preLen == preLen && this.port == port
      ensures NoKids(kids)
    {
      this.subnet, this.preLen, this.port := subnet, preLen, port;
      kids := [null, null, null, null];
    }
  }

  predicate NoKids(kids: seq<Node?>) {
    kids == [null, null, null, null]
  }

  ghost function EntryOf(n: Node): L.Entry
    reads n`subnet, n`preLen, n`port
  {
    L.Entry(n.subnet, n.preLen, n.port)
  }

  /** The trie as it was handed over: which node had which entry and which child. */
  datatype Skeleton = Skeleton(node: Node, entry: L.Entry, kids: seq<Option<Skeleton>>)

  ghost predicate Shaped(s: Skeleton) {
    |s.kids| == 4 && forall i :: 0 <= i < 4 && s.kids[i].Some? ==> Shaped(s.kids[i].value)
  }

  ghost function KidNodes(s: Skeleton, i: nat): set<Node>
    requires Shaped(s) && i < 4
    decreases s, 0
  {
    if s.kids[i].Some? then Nodes(s.kids[i].value) else {}
  }

  ghost function Nodes(s: Skeleton): set<Node>
    requires Shaped(s)
    decreases s, 1
  {
    {s.node} + KidNodes(s, 0) + KidNodes(s, 1) + KidNodes(s, 2) + KidNodes(s, 3)
  }

  /** No node occurs twice. */
  ghost predicate TreeLike(s: Skeleton)
    requires Shaped(s)
  {
    && (forall i :: 0 <= i < 4 ==> s.node !in KidNodes(s, i))
    && (forall i, j :: 0 <= i < j < 4 ==> KidNodes(s, i) !! KidNodes(s, j))
    && (forall i :: 0 <= i < 4 && s.kids[i].Some? ==> TreeLike(s.kids[i].value))
  }

  ghost function KidRef(s: Skeleton, i: nat): Node?
    requires Shaped(s) && i < 4
  {
    if s.kids[i].Some? then s.kids[i].value.node else null
  }

  /** The trie as a value. */
  ghost function Original(s: Skeleton): L.Trie
    requires Shaped(s)
    decreases s, 1
  {
    L.Trie(s.entry, [OriginalKid(s, 0), OriginalKid(s, 1), OriginalKid(s, 2), OriginalKid(s, 3)])
  }

  ghost function OriginalKid(s: Skeleton, i: nat): Option<L.Trie>
    requires Shaped(s) && i < 4
    decreases s, 0
  {
    if s.kids[i].Some? then Some(Original(s.kids[i].value)) else None
  }

  lemma {:induction false} OriginalWellFormed(s: Skeleton)
    requires Shaped(s)
    ensures L.WellFormed(Original(s))
  {
    forall i | 0 <= i < 4 && s.kids[i].Some? ensures L.WellFormed(Original(s.kids[i].value)) {
      OriginalWellFormed(s.kids[i].value);
    }
  }

  lemma OriginalKids(s: Skeleton, i: nat)
    requires Shaped(s) && i < 4
    ensures Original(s).kids[i] == OriginalKid(s, i) && L.WellFormed(Original(s))
  {
    OriginalWellFormed(s);
  }

  ghost predicate HadKids(s: Skeleton)
    requires Shaped(s)
  {
    exists i :: 0 <= i < 4 && s.kids[i].Some?
  }

  ghost predicate HadAllKids(s: Skeleton)
    requires Shaped(s)
  {
    forall i :: 0 <= i < 4 ==> s.kids[i].Some?
  }

  lemma SameKids(s: Skeleton)
    requires Shaped(s)
    ensures L.WellFormed(Original(s))
    ensures HadKids(s) <==> !L.IsLeaf(Original(s))
    ensures HadAllKids(s) <==> L.HasAllKids(Original(s))
  {
    OriginalWellFormed(s);
    forall i | 0 <= i < 4 ensures Original(s).kids[i] == OriginalKid(s, i) {
    }
    if HadKids(s) {
      var i :| 0 <= i < 4 && s.kids[i].Some?;
      assert Original(s).kids[i].Some?;
    }
    if HadAllKids(s) { assert s.kids[0].Some? && s.kids[1].Some? && s.kids[2].Some? && s.kids[3].Some?; }
    if L.HasAllKids(Original(s)) {
      forall i | 0 <= i < 4 ensures s.kids[i].Some? { assert Original(s).kids[i].Some?; }
    }
  }

  /** What the carrier of the children of `s` holds after the first `k` of them, if it starts with `e`. */
  ghost function Running(s: Skeleton, k: nat, e: L.Entry): L.Entry
    requires Shaped(s) && k <= 4
  {
    OriginalWellFormed(s);
    LastOver(Original(s), k, e)
  }

  ghost function Final(s: Skeleton, e: L.Entry): L.Entry
    requires Shaped(s)
  {
    OriginalWellFormed(s);
    Last(Original(s), e)
  }

  lemma RunningStep(s: Skeleton, k: nat, e: L.Entry)
    requires Shaped(s) && k < 4
    ensures Running(s, k + 1, e) ==
            if s.kids[k].Some? then Final(s.kids[k].value, Running(s, k, e)) else Running(s, k, e)
  {
    OriginalKids(s, k);
    if s.kids[k].Some? { OriginalWellFormed(s.kids[k].value); }
  }

  // ----- the heap before, during and after -----

  /** The heap looks like the skeleton. */
  ghost predicate Intact(s: Skeleton)
    requires Shaped(s)
    reads Nodes(s)
  {
    && |s.node.kids| == 4 && EntryOf(s.node) == s.entry
    && (forall i :: 0 <= i < 4 ==> s.node.kids[i] == KidRef(s, i))
    && (forall i :: 0 <= i < 4 && s.kids[i].Some? ==> (assert Nodes(s.kids[i].value) == KidNodes(s, i); Intact(s.kids[i].value)))
  }

  /** After pushing with `carrier`, which held `e`: original nodes keep their entries and children; a node
      that lacked some child has the carrier in the empty slots, and its children were pushed with a copy
      from `copies`, which has gone through them all; a node that had all four passed the carrier on. */
  ghost predicate Pushed(s: Skeleton, carrier: Node, e: L.Entry, copies: set<Node>)
    requires Shaped(s)
    reads Nodes(s), copies
    decreases s, 2
  {
    && |s.node.kids| == 4 && EntryOf(s.node) == s.entry
    && if !HadKids(s) then NoKids(s.node.kids)
       else if HadAllKids(s) then KidsPushed(s, carrier, carrier, Taken(s.entry, e), copies)
       else exists sub :: sub in copies && IsCopy(s, sub, e) && KidsPushed(s, carrier, sub, Taken(s.entry, e), copies)
  }

  ghost predicate IsCopy(s: Skeleton, sub: Node, e: L.Entry)
    requires Shaped(s)
    reads sub
  {
    EntryOf(sub) == Running(s, 4, Taken(s.entry, e))
  }

  ghost predicate KidsPushed(s: Skeleton, carrier: Node, sub: Node, e: L.Entry, copies: set<Node>)
    requires Shaped(s)
    reads Nodes(s), copies
    decreases s, 1
  {
    forall i :: 0 <= i < 4 ==> SlotPushed(s, i, carrier, sub, e, copies)
  }

  ghost predicate SlotPushed(s: Skeleton, i: nat, carrier: Node, sub: Node, e: L.Entry, copies: set<Node>)
    requires Shaped(s) && i < 4
    reads Nodes(s), copies
    decreases s, 0
  {
    && |s.node.kids| == 4
    && if s.kids[i].Some? then
         assert Nodes(s.kids[i].value) == KidNodes(s, i);
         s.node.kids[i] == s.kids[i].value.node && Pushed(s.kids[i].value, sub, Running(s, i, e), copies)
       else s.node.kids[i] == carrier
  }

  lemma {:induction false} PushedMore(s: Skeleton, carrier: Node, e: L.Entry, copies: set<Node>, more: set<Node>)
    requires Shaped(s) && Pushed(s, carrier, e, copies) && copies <= more
    ensures Pushed(s, carrier, e, more)
    decreases s, 2
  {
    if HadKids(s) && HadAllKids(s) {
      KidsPushedMore(s, carrier, carrier, Taken(s.entry, e), copies, more);
    } else if HadKids(s) {
      var sub :| sub in copies && IsCopy(s, sub, e) && KidsPushed(s, carrier, sub, Taken(s.entry, e), copies);
      KidsPushedMore(s, carrier, sub, Taken(s.entry, e), copies, more);
    }
  }

  lemma {:induction false} KidsPushedMore(s: Skeleton, carrier: Node, sub: Node, e: L.Entry, copies: set<Node>, more: set<Node>)
    requires Shaped(s) && KidsPushed(s, carrier, sub, e, copies) && copies <= more
    ensures KidsPushed(s, carrier, sub, e, more)
    decreases s, 1
  {
    forall i | 0 <= i < 4 ensures SlotPushed(s, i, carrier, sub, e, more) {
      assert SlotPushed(s, i, carrier, sub, e, copies);
      if s.kids[i].Some? { PushedMore(s.kids[i].value, sub, Running(s, i, e), copies, more); }
    }
  }

  /** Copies are leaves, and none of them is an original node. */
  ghost predicate AreCopies(copies: set<Node>, nodes: set<Node>)
    reads copies
  {
    copies !! nodes && forall c :: c in copies ==> NoKids(c.kids)
  }

  /** Slots before `k` are done, slots from `k` on are as they were. */
  ghost predicate DoneUpTo(s: Skeleton, k: nat, carrier: Node, sub: Node, e: L.Entry, copies: set<Node>)
    requires Shaped(s)
    reads Nodes(s), copies
  {
    forall i :: 0 <= i < 4 ==> SlotDone(s, i, k, carrier, sub, e, copies)
  }

  ghost predicate SlotDone(s: Skeleton, i: nat, k: nat, carrier: Node, sub: Node, e: L.Entry, copies: set<Node>)
    requires Shaped(s) && i < 4
    reads Nodes(s), copies
  {
    if i < k then SlotPushed(s, i, carrier, sub, e, copies) else SlotIntact(s, i)
  }

  ghost predicate SlotIntact(s: Skeleton, i: nat)
    requires Shaped(s) && i < 4
    reads Nodes(s)
  {
    && |s.node.kids| == 4 && s.node.kids[i] == KidRef(s, i)
    && (s.kids[i].Some? ==> (assert Nodes(s.kids[i].value) == KidNodes(s, i); Intact(s.kids[i].value)))
  }

  lemma SlotMore(s: Skeleton, i: nat, k: nat, carrier: Node, sub: Node, e: L.Entry, copies: set<Node>, more: set<Node>)
    requires Shaped(s) && i < 4 && SlotDone(s, i, k, carrier, sub, e, copies) && copies <= more && i != k
    ensures SlotDone(s, i, k + 1, carrier, sub, e, more)
  {
    if i < k && s.kids[i].Some? { PushedMore(s.kids[i].value, sub, Running(s, i, e), copies, more); }
  }

  // ----- the program -----

  /** The loop of either branch of `MleafPush`, over the four slots. */
  method PushKids(n: Node, carrier: Node, sub: Node, ghost s: Skeleton, ghost nodes: set<Node>, ghost e: L.Entry)
    returns (ghost copies: set<Node>)
    requires Shaped(s) && s.node == n && TreeLike(s) && nodes == Nodes(s)
    requires carrier !in nodes && sub !in nodes && NoKids(sub.kids)
    requires DoneUpTo(s, 0, carrier, sub, e, {}) && EntryOf(sub) == e
    modifies nodes`kids, sub`subnet, sub`preLen, sub`port
    ensures fresh(copies) && AreCopies(copies, nodes)
    ensures DoneUpTo(s, 4, carrier, sub, e, copies) && EntryOf(sub) == Running(s, 4, e)
    decreases s, 1
  {
    copies := {};
    var i := 0;
    while i != 4
      invariant 0 <= i <= 4 && fresh(copies) && AreCopies(copies, nodes) && NoKids(sub.kids)
      invariant DoneUpTo(s, i, carrier, sub, e, copies) && EntryOf(sub) == Running(s, i, e)
    {
      copies := PushKid(n, carrier, sub, i, s, nodes, e, copies);
      i := i + 1;
    }
  }

  /** One slot: fill it with the carrier if it is empty, or push below with `sub`. */
  method PushKid(n: Node, carrier: Node, sub: Node, i: nat, ghost s: Skeleton, ghost nodes: set<Node>, ghost e: L.Entry,
                 ghost before: set<Node>)
    returns (ghost copies: set<Node>)
    requires Shaped(s) && s.node == n && TreeLike(s) && nodes == Nodes(s) && i < 4
    requires carrier !in nodes && sub !in nodes && NoKids(sub.kids) && sub !in before && AreCopies(before, nodes)
    requires DoneUpTo(s, i, carrier, sub, e, before) && EntryOf(sub) == Running(s, i, e)
    modifies nodes`kids, sub`subnet, sub`preLen, sub`port
    ensures before <= copies && fresh(copies - before) && AreCopies(copies, nodes)
    ensures DoneUpTo(s, i + 1, carrier, sub, e, copies) && EntryOf(sub) == Running(s, i + 1, e)
    decreases s, 0, 1
  {
    assert SlotDone(s, i, i, carrier, sub, e, before);
    RunningStep(s, i, e);
    copies := before;
    if n.kids[i] == null {
      FillSlot(n, carrier, sub, i, s, nodes, e, before);
    } else {
      copies := PushBelow(n, carrier, sub, i, s, nodes, e, before);
    }
  }

  method FillSlot(n: Node, carrier: Node, ghost sub: Node, i: nat, ghost s: Skeleton, ghost nodes: set<Node>, ghost e: L.Entry,
                  ghost copies: set<Node>)
    requires Shaped(s) && s.node == n && TreeLike(s) && nodes == Nodes(s) && i < 4
    requires copies !! nodes && DoneUpTo(s, i, carrier, sub, e, copies) && s.kids[i].None?
    modifies n`kids
    ensures DoneUpTo(s, i + 1, carrier, sub, e, copies)
  {
    ghost var k := i + 1;
    assert SlotDone(s, i, i, carrier, sub, e, copies);
    n.kids := n.kids[i := carrier];
    forall j | 0 <= j < 4 && j != i ensures SlotDone(s, j, k, carrier, sub, e, copies) {
      assert old(SlotDone(s, j, i, carrier, sub, e, copies));
      assert s.node !in KidNodes(s, j);
      assert SlotDone(s, j, i, carrier, sub, e, copies);
    }
  }

  method PushBelow(n: Node, ghost carrier: Node, sub: Node, i: nat, ghost s: Skeleton, ghost nodes: set<Node>, ghost e: L.Entry,
                   ghost before: set<Node>)
    returns (ghost copies: set<Node>)
    requires Shaped(s) && s.node == n && TreeLike(s) && nodes == Nodes(s) && i < 4 && s.kids[i].Some?
    requires sub !in nodes && NoKids(sub.kids) && sub !in before && AreCopies(before, nodes)
    requires DoneUpTo(s, i, carrier, sub, e, before) && EntryOf(sub) == Running(s, i, e)
    modifies nodes`kids, sub`subnet, sub`preLen, sub`port
    ensures before <= copies && fresh(copies - before) && AreCopies(copies, nodes)
    ensures DoneUpTo(s, i + 1, carrier, sub, e, copies) && EntryOf(sub) == Final(s.kids[i].value, Running(s, i, e))
    decreases s, 0, 0
  {
    assert SlotDone(s, i, i, carrier, sub, e, before);
    ghost var kid := s.kids[i].value;
    assert Nodes(kid) == KidNodes(s, i) && s.node !in KidNodes(s, i);
    ghost var more := MleafPush(n.kids[i], sub, kid, Nodes(kid));
    copies := before + more;
    forall j | 0 <= j < 4 && j != i ensures SlotDone(s, j, i, carrier, sub, e, before) {
      assert old(SlotDone(s, j, i, carrier, sub, e, before));
      assert KidNodes(s, j) !! KidNodes(s, i);
    }
    SlotAdded(s, i, carrier, sub, e, before, more);
  }

  lemma SlotAdded(s: Skeleton, i: nat, carrier: Node, sub: Node, e: L.Entry, before: set<Node>, more: set<Node>)
    requires Shaped(s) && i < 4 && s.kids[i].Some? && |s.node.kids| == 4 && s.node.kids[i] == s.kids[i].value.node
    requires forall j :: 0 <= j < 4 && j != i ==> SlotDone(s, j, i, carrier, sub, e, before)
    requires Pushed(s.kids[i].value, sub, Running(s, i, e), more)
    ensures DoneUpTo(s, i + 1, carrier, sub, e, before + more)
  {
    var k, copies := i + 1, before + more;
    PushedMore(s.kids[i].value, sub, Running(s, i, e), more, copies);
    forall j | 0 <= j < 4 ensures SlotDone(s, j, k, carrier, sub, e, copies) {
      if j != i { SlotMore(s, j, i, carrier, sub, e, before, copies); }
    }
  }

  /** The carrier takes over the node's entry unless that is blank, and a node that lacks a child
      hands a copy of the carrier to its children instead of the carrier itself. */
  method PrepareCarrier(n: Node, carrier: Node) returns (sub: Node)
    requires |n.kids| == 4 && n != carrier && NoKids(carrier.kids)
    modifies carrier`subnet, carrier`preLen, carrier`port
    ensures null in n.kids <==> sub != carrier
    ensures sub != carrier ==> fresh(sub) && EntryOf(sub) == EntryOf(carrier)
    ensures NoKids(sub.kids)
    ensures EntryOf(carrier) == if n.subnet != 0 then EntryOf(n) else old(EntryOf(carrier))
  {
    if n.subnet != 0 {
      carrier.subnet, carrier.port, carrier.preLen := n.subnet, n.port, n.preLen;
    }
    sub := carrier;
    if !(n.kids[0] != null && n.kids[1] != null && n.kids[2] != null && n.kids[3] != null) {
      sub := new Node(carrier.subnet, carrier.preLen, carrier.port);
    }
  }

  lemma StartSlots(s: Skeleton, carrier: Node, sub: Node, e: L.Entry)
    requires Shaped(s) && Intact(s)
    ensures DoneUpTo(s, 0, carrier, sub, e, {})
  {
  }

  lemma AllSlotsDone(s: Skeleton, carrier: Node, sub: Node, e: L.Entry, copies: set<Node>, all: set<Node>)
    requires Shaped(s) && HadKids(s) && EntryOf(s.node) == s.entry
    requires DoneUpTo(s, 4, carrier, sub, Taken(s.entry, e), copies) && copies <= all
    requires if HadAllKids(s) then sub == carrier else sub in all && IsCopy(s, sub, e)
    ensures Pushed(s, carrier, e, all)
  {
    forall i | 0 <= i < 4 ensures SlotPushed(s, i, carrier, sub, Taken(s.entry, e), copies) {
      assert SlotDone(s, i, 4, carrier, sub, Taken(s.entry, e), copies);
    }
    assert SlotPushed(s, 0, carrier, sub, Taken(s.entry, e), copies);
    KidsPushedMore(s, carrier, sub, Taken(s.entry, e), copies, all);
  }

  lemma NoneMissing(s: Skeleton)
    requires Shaped(s) && Intact(s)
    ensures HadAllKids(s) <==> null !in s.node.kids
    ensures HadKids(s) <==> !NoKids(s.node.kids)
  {
    forall i | 0 <= i < 4 ensures s.node.kids[i] == null <==> s.kids[i].None? {
      assert s.node.kids[i] == KidRef(s, i);
    }
  }

  lemma FinalOf(s: Skeleton, e: L.Entry)
    requires Shaped(s)
    ensures Final(s, e) == if !HadKids(s) then e
                           else if HadAllKids(s) then Running(s, 4, Taken(s.entry, e)) else Taken(s.entry, e)
  {
    SameKids(s);
  }

  /** `MleafPush`: the whole effect on nodes, slots and carrier. */
  method MleafPush(n: Node, carrier: Node, ghost s: Skeleton, ghost nodes: set<Node>) returns (ghost copies: set<Node>)
    requires Shaped(s) && s.node == n && TreeLike(s) && nodes == Nodes(s) && Intact(s)
    requires carrier !in nodes && NoKids(carrier.kids)
    modifies nodes`kids, carrier`subnet, carrier`preLen, carrier`port
    ensures fresh(copies) && AreCopies(copies, nodes)
    ensures Pushed(s, carrier, old(EntryOf(carrier)), copies)
    ensures EntryOf(carrier) == Final(s, old(EntryOf(carrier)))
    decreases s, 3
  {
    NoneMissing(s);
    FinalOf(s, EntryOf(carrier));
    if n.kids[0] == null && n.kids[1] == null && n.kids[2] == null && n.kids[3] == null {
      copies := {};
    } else {
      copies := PushInner(n, carrier, s, nodes);
    }
  }

  method PushInner(n: Node, carrier: Node, ghost s: Skeleton, ghost nodes: set<Node>) returns (ghost copies: set<Node>)
    requires Shaped(s) && s.node == n && TreeLike(s) && nodes == Nodes(s) && Intact(s) && HadKids(s)
    requires carrier !in nodes && NoKids(carrier.kids)
    modifies nodes`kids, carrier`subnet, carrier`preLen, carrier`port
    ensures fresh(copies) && AreCopies(copies, nodes)
    ensures Pushed(s, carrier, old(EntryOf(carrier)), copies)
    ensures var e := Taken(s.entry, old(EntryOf(carrier)));
            EntryOf(carrier) == if HadAllKids(s) then Running(s, 4, e) else e
    decreases s, 2
  {
    NoneMissing(s);
    ghost var was := EntryOf(carrier);
    ghost var e := Taken(s.entry, was);
    var sub := PrepareCarrier(n, carrier);
    StartSlots(s, carrier, sub, e);
    copies := PushKids(n, carrier, sub, s, nodes, e);
    ghost var all := if sub == carrier then copies else copies + {sub};
    AllSlotsDone(s, carrier, sub, was, copies, all);
    copies := all;
  }

  // ----- the same, said of tries as values -----

  /** The trie reachable from the root now; `holders` are the nodes that may fill slots. */
  ghost function Current(s: Skeleton, holders: set<Node>): L.Trie
    requires Shaped(s)
    reads Nodes(s), holders
    decreases s, 1
  {
    L.Trie(EntryOf(s.node),
           [CurrentKid(s, holders, 0), CurrentKid(s, holders, 1), CurrentKid(s, holders, 2), CurrentKid(s, holders, 3)])
  }

  ghost function CurrentKid(s: Skeleton, holders: set<Node>, i: nat): Option<L.Trie>
    requires Shaped(s) && i < 4
    reads Nodes(s), holders
    decreases s, 0
  {
    if s.kids[i].Some? then
      assert Nodes(s.kids[i].value) == KidNodes(s, i);
      Some(Current(s.kids[i].value, holders))
    else if i < |s.node.kids| && s.node.kids[i] != null && s.node.kids[i] in holders && NoKids(s.node.kids[i].kids) then
      Some(L.Trie(EntryOf(s.node.kids[i]), EMPTY))
    else None
  }

  /** What the heap amounts to is the value that the last contents of the carriers determine. */
  lemma {:induction false} CurrentIsPushed(s: Skeleton, carrier: Node, e: L.Entry, copies: set<Node>, holders: set<Node>)
    requires Shaped(s) && Pushed(s, carrier, e, copies) && copies <= holders && carrier in holders
    requires forall c :: c in holders ==> NoKids(c.kids)
    ensures L.WellFormed(Original(s)) && Current(s, holders) == PushTrie(Original(s), e, EntryOf(carrier))
    decreases s, 2
  {
    SameKids(s);
    var b := Taken(s.entry, e);
    if !HadKids(s) {
      assert forall i :: 0 <= i < 4 ==> CurrentKid(s, holders, i) == None == OriginalKid(s, i);
    } else if HadAllKids(s) {
      KidsArePushed(s, carrier, carrier, b, copies, holders);
    } else {
      var sub :| sub in copies && IsCopy(s, sub, e) && KidsPushed(s, carrier, sub, b, copies);
      KidsArePushed(s, carrier, sub, b, copies, holders);
    }
  }

  lemma {:induction false} KidsArePushed(s: Skeleton, carrier: Node, sub: Node, b: L.Entry, copies: set<Node>, holders: set<Node>)
    requires Shaped(s) && KidsPushed(s, carrier, sub, b, copies)
    requires copies <= holders && carrier in holders && sub in holders
    requires forall c :: c in holders ==> NoKids(c.kids)
    ensures L.WellFormed(Original(s))
    ensures forall i :: 0 <= i < 4 ==>
              CurrentKid(s, holders, i) == PushSlot(Original(s), i, b, EntryOf(carrier), EntryOf(sub))
    decreases s, 1
  {
    OriginalWellFormed(s);
    forall i | 0 <= i < 4
      ensures CurrentKid(s, holders, i) == PushSlot(Original(s), i, b, EntryOf(carrier), EntryOf(sub))
    {
      assert SlotPushed(s, i, carrier, sub, b, copies);
      OriginalKids(s, i);
      if s.kids[i].Some? { CurrentIsPushed(s.kids[i].value, sub, Running(s, i, b), copies, holders); }
    }
  }

  /** Leaf pushing on a trie whose root has a child: the trie it leaves is the one `PushAll` describes, with
      the entries the shared carriers hold in the end; every node has no child or four, every leaf keeps
      its place and contents, and the compressed form can be built at every level. */
  method LeafPushTrie(root: Node, ghost s: Skeleton, ghost nodes: set<Node>) returns (ghost holders: set<Node>)
    requires Shaped(s) && s.node == root && TreeLike(s) && nodes == Nodes(s) && Intact(s) && HadKids(s)
    modifies nodes`kids
    ensures fresh(holders) && L.WellFormed(Original(s))
    ensures Current(s, holders) == PushAll(Original(s))
    ensures Filled(Original(s), Current(s, holders)) && L.Full(Current(s, holders))
    ensures L.WellFormed(Current(s, holders)) && L.BuildsThroughout(Current(s, holders))
  {
    var carrier := new Node(0, 0, 0);
    ghost var copies := MleafPush(root, carrier, s, nodes);
    holders := copies + {carrier};
    SameKids(s);
    assert Current(s, holders) == PushAll(Original(s)) by {
      CurrentIsPushed(s, carrier, L.BLANK, copies, holders);
    }
    PushBuilds(Original(s));
  }
}
