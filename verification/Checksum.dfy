/** The Internet checksum as computed in 32-bit arithmetic, and its use over the TCP pseudo-header.
    Lengths are even; 16-bit words are taken as the machine loads them. */
module Checksum {

  const WORD := 0x1_0000
  const LONG := 0x1_0000_0000
  const CHECKSUM_FIELD := 8  // the ninth 16-bit word of a TCP header
  const HEADER_WORDS := 10

  ghost predicate Words(ws: seq<nat>) {
    forall i :: 0 <= i < |ws| ==> ws[i] < WORD
  }

  ghost function Sum(ws: seq<nat>): nat {
    if ws == [] then 0 else Sum(ws[..|ws| - 1]) + ws[|ws| - 1]
  }

  /** One's complement sum: congruent modulo 2^16 - 1, and zero only for zero. */
  ghost function OnesSum(x: nat): (r: nat)
    ensures r < WORD
  {
    if x == 0 then 0 else 1 + (x - 1) % (WORD - 1)
  }

  /** The two fold steps and the truncation to 16 bits. */
  function Folded(x: nat): nat {
    var s := x / WORD + x % WORD;
    (s + s / WORD) % WORD
  }

  /** `r` is the one's complement sum of `x` as soon as the two differ by a multiple of 2^16 - 1. */
  lemma OnesSumFrom(x: nat, q: nat, r: nat)
    requires x == q * (WORD - 1) + r && 1 <= r < WORD
    ensures OnesSum(x) == r
  {
    assert x - 1 == q * (WORD - 1) + (r - 1);
  }

  /** Two folds give the one's complement sum of any 32-bit value. */
  lemma TwoFoldsSuffice(x: nat)
    requires x < LONG
    ensures Folded(x) == OnesSum(x)
  {
    var h, l := x / WORD, x % WORD;
    var s := h + l;
    if x == 0 {
    } else if s < WORD {
      OnesSumFrom(x, h, s);
    } else {
      OnesSumFrom(x, h + 1, s - (WORD - 1));
    }
  }

  lemma {:induction false} OnesSumForm(x: nat) returns (q: nat)
    requires x > 0
    ensures x == q * (WORD - 1) + OnesSum(x) && 1 <= OnesSum(x) < WORD
  {
    q := (x - 1) / (WORD - 1);
  }

  /** Values that differ by multiples of 2^16 - 1 have the same one's complement sum, zero apart. */
  lemma OnesSumCongruent(x: nat, y: nat, d: nat)
    requires x > 0 && y == x + d * (WORD - 1)
    ensures OnesSum(y) == OnesSum(x)
  {
    var q := OnesSumForm(x);
    OnesSumFrom(y, q + d, OnesSum(x));
  }

  /** A sum completed with the complement of its one's complement sum folds to all ones. */
  lemma CompletedFoldsToOnes(x: nat)
    ensures OnesSum(x + (WORD - 1 - OnesSum(x))) == WORD - 1
  {
    if x == 0 {
      OnesSumFrom(WORD - 1, 0, WORD - 1);
    } else {
      var q := OnesSumForm(x);
      OnesSumFrom(x + (WORD - 1 - OnesSum(x)), q, WORD - 1);
    }
  }

  /** 32-bit wrap-around loses what the one's complement sum would have kept: the truncated value has
      the right sum exactly when nothing was truncated. */
  lemma WrapBreaksSum(x: nat)
    requires x < (WORD - 1) * LONG
    ensures OnesSum(x % LONG) == OnesSum(x) <==> x < LONG
  {
    var w, a := x / LONG, x % LONG;
    if x > 0 {
      var q := OnesSumForm(x);
      if a > 0 && OnesSum(a) == OnesSum(x) {
        var p := OnesSumForm(a);
        assert w * LONG == w * 65537 * (WORD - 1) + w;
        assert w == (q - p - w * 65537) * (WORD - 1);
      }
    }
  }

  /** The complement of the one's complement sum of what a 32-bit accumulator holds in the end. */
  ghost function Checked(buf: seq<nat>, init: nat): nat {
    WORD - 1 - OnesSum((init + Sum(buf)) % LONG)
  }

  /** `checksum`: the accumulator is 32 bits wide. */
  method ComputeChecksum(buf: seq<nat>, init: nat) returns (c: nat)
    requires init < LONG
    ensures c == Checked(buf, init) < WORD
  {
    var sum := init;
    for i := 0 to |buf|
      invariant sum == (init + Sum(buf[..i])) % LONG
    {
      assert buf[..i + 1][..i] == buf[..i];
      AddWraps(init + Sum(buf[..i]), buf[i]);
      sum := (sum + buf[i]) % LONG;
    }
    assert buf[..|buf|] == buf;
    TwoFoldsSuffice(sum);
    ghost var all := sum;
    sum := sum / WORD + sum % WORD;
    sum := sum + sum / WORD;
    assert sum % WORD == Folded(all);
    c := WORD - 1 - sum % WORD;
  }

  lemma AddWraps(a: nat, b: nat)
    ensures (a % LONG + b) % LONG == (a + b) % LONG
  {
    assert a == a / LONG * LONG + a % LONG;
  }

  lemma {:induction false} SumUpdate(ws: seq<nat>, i: nat, v: nat)
    requires i < |ws|
    ensures Sum(ws[i := v]) == Sum(ws) - ws[i] + v
  {
    var m := |ws| - 1;
    if i == m {
      assert ws[i := v][..m] == ws[..m];
    } else {
      SumUpdate(ws[..m], i, v);
      assert ws[i := v][..m] == ws[..m][i := v];
    }
  }

  /** Filling in the checksum makes the whole buffer, pseudo-header included, fold to 0xFFFF. */
  lemma FilledInFoldsToOnes(ws: seq<nat>, i: nat, init: nat)
    requires i < |ws| && ws[i] == 0
    ensures var c := WORD - 1 - OnesSum(init + Sum(ws));
            OnesSum(init + Sum(ws[i := c])) == WORD - 1
  {
    var x := init + Sum(ws);
    CompletedFoldsToOnes(x);
    SumUpdate(ws, i, WORD - 1 - OnesSum(x));
  }

  /** A 32-bit value and the complement of its one's complement sum never add up to more than 32 bits. */
  lemma CompletedFits(a: nat)
    requires a < LONG
    ensures a + (WORD - 1 - OnesSum(a)) < LONG
  {
    if a > 0 {
      var q := OnesSumForm(a);
      assert LONG - 1 == 65537 * (WORD - 1);
      assert q * (WORD - 1) < 65537 * (WORD - 1);
      assert q < 65537;
    }
  }

  lemma AddFits(x: nat, c: nat)
    requires x % LONG + c < LONG
    ensures (x + c) % LONG == x % LONG + c
  {
    AddWraps(x, c);
  }

  /** Completing a value by the complement for its low 32 bits makes these fold to all ones. */
  lemma CompletedWraps(x: nat, a: nat, c: nat)
    requires a == x % LONG && c == WORD - 1 - OnesSum(a)
    ensures OnesSum((x + c) % LONG) == WORD - 1
  {
    assert a + c < LONG by { CompletedFits(a); }
    assert (x + c) % LONG == a + c by { AddFits(x, c); }
    assert OnesSum(a + c) == WORD - 1 by { CompletedFoldsToOnes(a); }
  }

  /** A receiver that runs `checksum` over a buffer with its checksum filled in gets 0, for every buffer
      and starting value: the complement never makes the accumulator wrap once more. */
  lemma RecheckGivesZero(ws: seq<nat>, i: nat, init: nat)
    requires i < |ws| && ws[i] == 0
    ensures Checked(ws[i := Checked(ws, init)], init) == 0
  {
    var x, c := init + Sum(ws), Checked(ws, init);
    assert init + Sum(ws[i := c]) == x + c by { SumUpdate(ws, i, c); }
    CompletedWraps(x, x % LONG, c);
  }

  // ----- TCP -----

  /** The pseudo-header of section 3.1 of RFC 793 as 16-bit words. */
  function PseudoHeader(saddr: nat, daddr: nat, proto: nat, len: nat): seq<nat> {
    [saddr / WORD, saddr % WORD, daddr / WORD, daddr % WORD, proto, len]
  }

  ghost function PseudoSum(saddr: nat, daddr: nat, proto: nat, len: nat): nat {
    saddr / WORD + saddr % WORD + (daddr / WORD + daddr % WORD) + proto + len
  }

  lemma PseudoSumIsSum(saddr: nat, daddr: nat, proto: nat, len: nat)
    ensures Sum(PseudoHeader(saddr, daddr, proto, len)) == PseudoSum(saddr, daddr, proto, len)
  {
    var p := PseudoHeader(saddr, daddr, proto, len);
    assert p[..5][..4] == p[..4] && p[..4][..3] == p[..3] && p[..3][..2] == p[..2] && p[..2][..1] == p[..1];
    assert p[..1][..0] == [];
    assert Sum(p[..1]) == saddr / WORD;
    assert Sum(p[..2]) == saddr / WORD + saddr % WORD;
    assert Sum(p[..3]) == Sum(p[..2]) + daddr / WORD;
    assert Sum(p[..4]) == Sum(p[..3]) + daddr % WORD;
    assert Sum(p[..5]) == Sum(p[..4]) + proto;
    assert Sum(p) == Sum(p[..5]) + len;
  }

  /** Whole 32-bit addresses and their 16-bit halves have the same one's complement sum. */
  lemma HalvesOrWholes(saddr: nat, daddr: nat, rest: nat)
    ensures OnesSum(saddr + daddr + rest) ==
            OnesSum(saddr / WORD + saddr % WORD + (daddr / WORD + daddr % WORD) + rest)
  {
    var halves := saddr / WORD + saddr % WORD + (daddr / WORD + daddr % WORD) + rest;
    var d := saddr / WORD + daddr / WORD;
    assert saddr + daddr + rest == halves + d * (WORD - 1);
    if halves > 0 {
      OnesSumCongruent(halves, saddr + daddr + rest, d);
    }
  }

  /** The checksum section 3.1 of RFC 793 asks for, with the field itself taken as zero. */
  ghost function RfcChecksum(saddr: nat, daddr: nat, proto: nat, len: nat, segment: seq<nat>): nat
    requires |segment| > CHECKSUM_FIELD
  {
    WORD - 1 - OnesSum(Sum(PseudoHeader(saddr, daddr, proto, len)) + Sum(segment[CHECKSUM_FIELD := 0]))
  }

  /** The value the 32-bit computation arrives at. */
  ghost function CodeChecksum(saddr: nat, daddr: nat, proto: nat, len: nat, segment: seq<nat>): nat
    requires |segment| > CHECKSUM_FIELD
  {
    WORD - 1 - OnesSum((saddr + daddr + proto + len + Sum(segment[CHECKSUM_FIELD := 0])) % LONG)
  }

  ghost predicate NoWrap(saddr: nat, daddr: nat, proto: nat, len: nat, segment: seq<nat>)
    requires |segment| > CHECKSUM_FIELD
  {
    saddr + daddr + proto + len + Sum(segment[CHECKSUM_FIELD := 0]) < LONG
  }

  lemma {:induction false} SumBound(ws: seq<nat>)
    requires Words(ws)
    ensures Sum(ws) <= |ws| * (WORD - 1)
  {
    if ws != [] {
      var m := |ws| - 1;
      SumBound(ws[..m]);
      assert (m + 1) * (WORD - 1) == m * (WORD - 1) + (WORD - 1);
    }
  }

  /** What the 32-bit computation yields is the checksum asked for exactly when it never wraps. */
  lemma RightUnlessWrapped(saddr: nat, daddr: nat, proto: nat, len: nat, segment: seq<nat>)
    requires saddr < LONG && daddr < LONG && proto < WORD && len < WORD
    requires Words(segment) && CHECKSUM_FIELD < |segment| < WORD
    ensures CodeChecksum(saddr, daddr, proto, len, segment) == RfcChecksum(saddr, daddr, proto, len, segment) <==>
            NoWrap(saddr, daddr, proto, len, segment)
  {
    var ws := segment[CHECKSUM_FIELD := 0];
    SumBound(ws);
    PseudoSumIsSum(saddr, daddr, proto, len);
    HalvesOrWholes(saddr, daddr, proto + len + Sum(ws));
    assert |ws| * (WORD - 1) <= WORD * (WORD - 1);
    WrapBreaksSum(saddr + daddr + proto + len + Sum(ws));
  }

  /** Two addresses whose sum passes 2^32 are enough to get the checksum wrong. */
  lemma LargeAddressesGetItWrong(segment: seq<nat>)
    requires Words(segment) && CHECKSUM_FIELD < |segment| < WORD
    ensures CodeChecksum(0x8000_0000, 0x8000_0000, 0x0600, 0x1400, segment) !=
            RfcChecksum(0x8000_0000, 0x8000_0000, 0x0600, 0x1400, segment)
  {
    RightUnlessWrapped(0x8000_0000, 0x8000_0000, 0x0600, 0x1400, segment);
  }

  /** `tcp_checksum`: the header is left as it was found. */
  method TcpChecksum(saddr: nat, daddr: nat, proto: nat, len: nat, tcp: array<nat>) returns (c: nat)
    requires saddr < LONG && daddr < LONG && proto < WORD && len < WORD
    requires HEADER_WORDS <= tcp.Length < WORD && Words(tcp[..])
    modifies tcp
    ensures tcp[..] == old(tcp[..]) && c == CodeChecksum(saddr, daddr, proto, len, tcp[..])
    ensures c == RfcChecksum(saddr, daddr, proto, len, tcp[..]) <==> NoWrap(saddr, daddr, proto, len, tcp[..])
  {
    ghost var segment := tcp[..];
    var tmp := tcp[CHECKSUM_FIELD];
    tcp[CHECKSUM_FIELD] := 0;
    assert tcp[..] == segment[CHECKSUM_FIELD := 0];
    var sum := (saddr + daddr + proto + len) % LONG;
    AddWraps(saddr + daddr + proto + len, Sum(tcp[..]));
    c := ComputeChecksum(tcp[..], sum);
    RightUnlessWrapped(saddr, daddr, proto, len, segment);
    tcp[CHECKSUM_FIELD] := tmp;
    assert tcp[..] == segment;
  }
}
