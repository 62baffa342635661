/** The walk through the trie said in terms of the address: two bits per level, from the top. */
module LookupDigits {
  import opened Wrappers
  import opened Lookup

  function Pow4(n: nat): (p: nat)
    ensures p > 0
  {
    if n == 0 then 1 else 4 * Pow4(n - 1)
  }

  /** The k-th pair of bits of a 32-bit address, counted from the most significant; zero past the end. */
  function Digit(ip: nat, k: nat): (d: nat)
    ensures d < 4
  {
    if k < 16 then ip / Pow4(15 - k) % 4 else 0
  }

  // ----- arithmetic -----

  lemma {:induction false} Pow4Sum(a: nat, b: nat)
    ensures Pow4(a) * Pow4(b) == Pow4(a + b)
  {
    if a > 0 { Pow4Sum(a - 1, b); }
  }

  lemma Pow4Word()
    ensures Pow4(15) == 0x4000_0000 && Pow4(16) == WORD
  {
    assert Pow4(5) == 1024;
    Pow4Sum(5, 5);
    Pow4Sum(10, 5);
  }

  /** The low part of an address, split at the next digit. */
  lemma SplitLow(ip: nat, p: nat)
    requires p > 0
    ensures ip % (4 * p) == ip / p % 4 * p + ip % p
    ensures ip / (4 * p) == ip / p / 4
  {
    SplitAt(ip, p, ip / p, ip % p, ip / p / 4, ip / p % 4);
  }

  lemma SplitAt(ip: nat, p: nat, q: nat, r: nat, h: nat, d: nat)
    requires ip == q * p + r && r < p && q == 4 * h + d && d < 4
    ensures ip % (4 * p) == d * p + r && ip / (4 * p) == h
  {
    Recombine(h, d, p, r);
    Remainder(ip, 4 * p, h, d * p + r);
  }

  lemma Recombine(h: nat, d: nat, p: nat, r: nat)
    requires d < 4 && r < p
    ensures (4 * h + d) * p + r == h * (4 * p) + (d * p + r) && d * p + r < 4 * p
  {
    MulMono(d, 3, p);
  }

  lemma MulMono(a: int, b: int, m: nat)
    requires a <= b
    ensures a * m <= b * m
  {
    assert (b - a) * m >= 0;
  }

  lemma QuotientAtMost(m: nat, q: nat, r: nat, q': nat, r': nat)
    requires r < m && q * m + r == q' * m + r'
    ensures q' <= q
  {
    assert (q + 1) * m == q * m + m;
    if q' > q { MulMono(q + 1, q', m); }
  }

  lemma Remainder(x: nat, m: nat, q: nat, r: nat)
    requires m > 0 && x == q * m + r && r < m
    ensures x % m == r && x / m == q
  {
    var q', r' := x / m, x % m;
    assert q * m + r == q' * m + r';
    QuotientAtMost(m, q, r, q', r');
    QuotientAtMost(m, q', r', q, r);
  }

  /** What is left of the address after `k` shifts by two. */
  ghost function Rest(ip: nat, k: nat): nat {
    if k <= 16 then ip % Pow4(16 - k) * Pow4(k) else 0
  }

  /** The top two bits of the rest are the next digit, and shifting them out gives the next rest. */
  lemma RestStep(ip: nat, k: nat)
    requires k < 16
    ensures Rest(ip, k) == Digit(ip, k) * Pow4(15) + ip % Pow4(15 - k) * Pow4(k)
    ensures ip % Pow4(15 - k) * Pow4(k) < Pow4(15)
    ensures Rest(ip, k + 1) == 4 * (ip % Pow4(15 - k) * Pow4(k))
  {
    assert Pow4(16 - k) == 4 * Pow4(15 - k) && Pow4(k + 1) == 4 * Pow4(k);
    assert Pow4(15 - k) * Pow4(k) == Pow4(15) by { Pow4Sum(15 - k, k); }
    SplitLow(ip, Pow4(15 - k));
    Scale(Digit(ip, k), ip % Pow4(15 - k), Pow4(15 - k), Pow4(k));
  }

  lemma Scale(d: nat, low: nat, p: nat, s: nat)
    requires low < p && s > 0
    ensures (d * p + low) * s == d * (p * s) + low * s
    ensures low * s < p * s && low * (4 * s) == 4 * (low * s)
  {
    assert (d * p + low) * s == d * p * s + low * s;
    assert d * p * s == d * (p * s);
    assert (p - low) * s > 0;
  }

  /** The slot the code takes at level `k`, and the word it goes on with. */
  lemma SlotIsDigit(ip: nat, k: nat)
    ensures Rest(ip, k) < WORD && Slot(Rest(ip, k)) == Digit(ip, k) && Shifted(Rest(ip, k)) == Rest(ip, k + 1)
  {
    Pow4Word();
    if k < 16 {
      RestStep(ip, k);
    } else if k == 16 {
      assert ip % Pow4(0) == 0;
    }
  }

  // ----- the walk -----

  /** The digits from position `k` on, `n` of them. */
  ghost function Digits(ip: nat, k: nat, n: nat): seq<nat> {
    seq<nat>(n, i requires 0 <= i < n => Digit(ip, k + i))
  }

  ghost predicate HasPath(t: Trie, path: seq<nat>)
    decreases |path|
  {
    path == [] ||
    (|t.kids| == 4 && path[0] < 4 && t.kids[path[0]].Some? && HasPath(t.kids[path[0]].value, path[1..]))
  }

  ghost function NodeAt(t: Trie, path: seq<nat>): Trie
    requires HasPath(t, path)
    decreases |path|
  {
    if path == [] then t else NodeAt(t.kids[path[0]].value, path[1..])
  }

  /** The search ends at the node whose path is the longest prefix of the address, digit by digit. */
  lemma {:induction false} DeepestFrom(t: Trie, ip: nat, k: nat) returns (n: nat)
    requires WellFormed(t) && Rest(ip, k) < WORD
    ensures var path := Digits(ip, k, n);
            && HasPath(t, path) && NodeAt(t, path) == Deepest(t, Rest(ip, k))
            && |NodeAt(t, path).kids| == 4 && NodeAt(t, path).kids[Digit(ip, k + n)].None?
    decreases t
  {
    SlotIsDigit(ip, k);
    var kid := t.kids[Digit(ip, k)];
    if kid.None? {
      n := 0;
    } else {
      SlotIsDigit(ip, k + 1);
      n := DeepestFrom(kid.value, ip, k + 1);
      var path := Digits(ip, k, n + 1);
      assert path[0] == Digit(ip, k) && path[1..] == Digits(ip, k + 1, n);
      n := n + 1;
    }
  }

  lemma DeepestByDigits(t: Trie, ip: nat) returns (n: nat)
    requires WellFormed(t) && ip < WORD
    ensures var path := Digits(ip, 0, n);
            && HasPath(t, path) && NodeAt(t, path) == Deepest(t, ip)
            && |NodeAt(t, path).kids| == 4 && NodeAt(t, path).kids[Digit(ip, n)].None?
  {
    Pow4Word();
    assert Rest(ip, 0) == ip;
    n := DeepestFrom(t, ip, 0);
  }

  // ----- prefixes spelled by paths -----

  /** A path read as a number. */
  ghost function Value(path: seq<nat>): nat {
    if path == [] then 0 else 4 * Value(path[..|path| - 1]) + path[|path| - 1]
  }

  /** The entry's prefix is made of leading bits of the path. */
  ghost predicate Spells(e: Entry, path: seq<nat>) {
    e.preLen <= 2 * |path| <= 32 && Shr(e.subnet, 32 - e.preLen) == Shr(Value(path), 2 * |path| - e.preLen)
  }

  /** Every leaf of the trie holds a prefix that its path from the root spells. */
  ghost predicate LeavesSpelled(t: Trie, path: seq<nat>) {
    && |t.kids| == 4
    && (IsLeaf(t) ==> Spells(t.entry, path))
    && forall i :: 0 <= i < 4 && t.kids[i].Some? ==> LeavesSpelled(t.kids[i].value, path + [i])
  }

  lemma {:induction false} SpelledAt(t: Trie, at: seq<nat>, path: seq<nat>)
    requires LeavesSpelled(t, at) && HasPath(t, path)
    ensures LeavesSpelled(NodeAt(t, path), at + path)
    decreases |path|
  {
    if path == [] {
      assert at + path == at;
    } else {
      SpelledAt(t.kids[path[0]].value, at + [path[0]], path[1..]);
      assert at + [path[0]] + path[1..] == at + path;
    }
  }

  lemma {:induction false} ShrShr(a: nat, m: nat, n: nat)
    ensures Shr(Shr(a, m), n) == Shr(a, m + n)
  {
    if n > 0 { ShrShr(a, m, n - 1); }
  }

  /** Shifting right by pairs of bits is division by a power of four. */
  lemma {:induction false} ShrIsDivision(a: nat, n: nat)
    ensures Shr(a, 2 * n) == a / Pow4(n)
  {
    if n > 0 {
      ShrIsDivision(a, n - 1);
      SplitLow(a, Pow4(n - 1));
      var q := Shr(a, 2 * n - 2);
      assert Shr(a, 2 * n) == Shr(a, 2 * n - 1) / 2 == q / 2 / 2;
    }
  }

  /** The leading digits of an address, read as a number, are its leading bits. */
  lemma {:induction false} DigitsAreLeadingBits(ip: nat, n: nat)
    requires n <= 16 && ip < WORD
    ensures Value(Digits(ip, 0, n)) == Shr(ip, 32 - 2 * n)
  {
    var path := Digits(ip, 0, n);
    if n == 0 {
      Pow4Word();
      ShrIsDivision(ip, 16);
    } else {
      DigitsAreLeadingBits(ip, n - 1);
      assert path[..n - 1] == Digits(ip, 0, n - 1);
      NextDigit(ip, n - 1);
    }
  }

  lemma Quarters(a: nat)
    ensures a == 4 * (a / 2 / 2) + a % 4
  {
    var h, d := a / 4, a % 4;
    assert a == 4 * h + d;
    assert a / 2 == 2 * h + if d < 2 then 0 else 1;
    assert a / 2 / 2 == h;
  }

  lemma NextDigit(ip: nat, n: nat)
    requires n < 16
    ensures Shr(ip, 30 - 2 * n) == 4 * Shr(ip, 32 - 2 * n) + Digit(ip, n)
  {
    var a := Shr(ip, 30 - 2 * n);
    assert a % 4 == Digit(ip, n) by { ShrIsDivision(ip, 15 - n); }
    assert Shr(ip, 32 - 2 * n) == Shr(ip, 31 - 2 * n) / 2 == a / 2 / 2;
    Quarters(a);
  }

  /** A prefix spelled by leading digits of an address covers the address. */
  lemma SpelledCovers(e: Entry, ip: nat, n: nat)
    requires ip < WORD && Spells(e, Digits(ip, 0, n))
    ensures PrefixMatches(e, ip)
  {
    DigitsAreLeadingBits(ip, n);
    ShrShr(ip, 32 - 2 * n, 2 * n - e.preLen);
  }

  /** In a full trie whose leaves hold prefixes spelled by their paths, every address is answered, by both
      searches, with the entry of the one leaf whose path is a prefix of the address, and that entry
      covers it. */
  lemma BothFindTheLeaf(t: Trie, ip: nat) returns (n: nat)
    requires Full(t) && !IsLeaf(t) && LeavesSpelled(t, []) && ip < WORD
    ensures WellFormed(t) && Indexable(Compress(t))
    ensures var path := Digits(ip, 0, n);
            && HasPath(t, path) && IsLeaf(NodeAt(t, path))
            && var e := NodeAt(t, path).entry;
               e.preLen <= 32 && PrefixMatches(e, ip) && Found(t, ip) == e && CvFound(Compress(t), ip) == e
  {
    FullIsWellFormed(t);
    n := DeepestByDigits(t, ip);
    var path := Digits(ip, 0, n);
    var leaf := NodeAt(t, path);
    FullBelow(t, path);
    SpelledAt(t, [], path);
    assert [] + path == path;
    SpelledCovers(leaf.entry, ip, n);
    SameLeaf(t, ip);
  }

  lemma {:induction false} FullBelow(t: Trie, path: seq<nat>)
    requires Full(t) && HasPath(t, path)
    ensures Full(NodeAt(t, path))
    decreases |path|
  {
    if path != [] { FullBelow(t.kids[path[0]].value, path[1..]); }
  }
}
