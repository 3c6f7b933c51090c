/** Expansion of a CIDR subnet into source addresses.  Addresses are byte sequences, most significant byte first. */
module Cidr {
  import opened Common

  newtype byte = x: int | 0 <= x < 256

  function Pow2(n: nat): (p: nat)
    ensures p > 0
  {
    if n == 0 then 1 else 2 * Pow2(n - 1)
  }

  function Pow256(n: nat): (p: nat)
    ensures p > 0
  {
    if n == 0 then 1 else 256 * Pow256(n - 1)
  }

  /** The number an address stands for. */
  function Value(s: seq<byte>): nat {
    if s == [] then 0 else s[0] as nat * Pow256(|s| - 1) + Value(s[1..])
  }

  lemma {:induction false} ValueBound(s: seq<byte>)
    ensures Value(s) < Pow256(|s|)
  {
    if s != [] {
      ValueBound(s[1..]);
      MulLe(s[0] as nat, 255, Pow256(|s| - 1));
    }
  }

  /** Big-endian: one more byte at the end is worth itself, and 256 times what was there. */
  lemma {:induction false} ValueOfLast(s: seq<byte>, b: byte)
    ensures Value(s + [b]) == 256 * Value(s) + b as nat && Value([]) == 0
  {
    if s == [] {
      assert s + [b] == [b] && [b][1..] == [];
    } else {
      assert (s + [b])[1..] == s[1..] + [b];
      ValueOfLast(s[1..], b);
    }
  }

  /** One turn of the carry loop, at a byte of weight p. */
  lemma CarryStep(b: nat, carry: nat, p: nat)
    ensures
      var val := b + carry % 256;
      val % 256 * p + (carry / 256 + val / 256) * (256 * p) == b * p + carry * p
  {
    var val := b + carry % 256;
    var lo, hi := val % 256, carry / 256 + val / 256;
    assert lo + 256 * hi == b + carry;
    assert lo * p + hi * (256 * p) == (lo + 256 * hi) * p;
    assert (b + carry) * p == b * p + carry * p;
  }

  /** The same, for the value of the address from that byte on. */
  lemma TailStep(b: byte, tail: seq<byte>, tail': seq<byte>, carry: nat, i: nat)
    requires |tail'| == |tail| && Value(tail') + carry * Pow256(|tail|) == Value(tail) + i
    ensures
      var val := b as nat + carry % 256;
      var b' := (val % 256) as byte;
      Value([b'] + tail') + (carry / 256 + val / 256) * Pow256(|tail| + 1) == Value([b] + tail) + i
  {
    var p := Pow256(|tail|);
    var val := b as nat + carry % 256;
    var b' := (val % 256) as byte;
    CarryStep(b as nat, carry, p);
    assert ([b] + tail)[1..] == tail && ([b'] + tail')[1..] == tail';
    assert Value([b] + tail) == b as nat * p + Value(tail);
    assert Value([b'] + tail') == b' as nat * p + Value(tail');
  }

  /** A change in the tail of an address changes its value by as much as that of the tail. */
  lemma {:induction false} SameHead(s: seq<byte>, t: seq<byte>, j: nat)
    requires j <= |s| == |t| && s[..j] == t[..j]
    ensures Value(s) - Value(t) == Value(s[j..]) - Value(t[j..])
  {
    if j > 0 {
      assert s[0] == s[..j][0] == t[..j][0] == t[0];
      assert s[1..][..j - 1] == s[..j][1..] == t[..j][1..] == t[1..][..j - 1];
      SameHead(s[1..], t[1..], j - 1);
      assert s[1..][j - 1..] == s[j..] && t[1..][j - 1..] == t[j..];
    }
  }

  /** What the carry loop keeps: bytes up to j are untouched, the rest and the pending carry add up to the sum. */
  ghost predicate Pending(now: seq<byte>, was: seq<byte>, j: int, carry: nat, i: nat) {
    && |now| == |was| && -1 <= j < |now|
    && now[..j + 1] == was[..j + 1]
    && Value(now[j + 1..]) + carry * Pow256(|now| - 1 - j) == Value(was[j + 1..]) + i
  }

  lemma CarryStarts(was: seq<byte>, i: nat)
    ensures Pending(was, was, |was| - 1, i, i)
  {
    assert was[|was|..] == [];
  }

  lemma CarryTurns(now: seq<byte>, was: seq<byte>, j: nat, carry: nat, i: nat)
    requires Pending(now, was, j, carry, i)
    ensures
      var val := now[j] as nat + carry % 256;
      Pending(now[j := (val % 256) as byte], was, j - 1, carry / 256 + val / 256, i)
  {
    hide Value, Pow256;
    var val := now[j] as nat + carry % 256;
    var b := (val % 256) as byte;
    assert was[j..] == [was[j]] + was[j + 1..];
    assert was[j] == was[..j + 1][j] == now[..j + 1][j] == now[j];
    TailStep(now[j], was[j + 1..], now[j + 1..], carry, i);
    var next := now[j := b];
    assert next[j..] == [b] + now[j + 1..];
    assert next[..j] == now[..j + 1][..j] == was[..j];
  }

  lemma CarryEnds(now: seq<byte>, was: seq<byte>, j: int, carry: nat, i: nat)
    requires Pending(now, was, j, carry, i) && (j < 0 || carry == 0)
    ensures Value(now) == (Value(was) + i) % Pow256(|now|)
  {
    hide Value, Pow256;
    ValueBound(now);
    if j < 0 {
      assert now[0..] == now && was[0..] == was;
      DivModUnique(Value(was) + i, carry, Pow256(|now|), Value(now));
    } else {
      SameHead(now, was, j + 1);
      DivModUnique(Value(was) + i, 0, Pow256(|now|), Value(now));
    }
  }

  /** Adds i to the address in place, from the last byte on, as long as there is a carry. */
  method AddWithCarry(a: array<byte>, i: nat)
    modifies a
    ensures Value(a[..]) == (Value(old(a[..])) + i) % Pow256(a.Length)
  {
    hide Value, Pow256, Pending;
    var carry: nat := i;
    var j := a.Length - 1;
    ghost var was := a[..];
    CarryStarts(was, i);
    while j >= 0 && carry > 0
      invariant -1 <= j < a.Length
      invariant Pending(a[..], was, j, carry, i)
    {
      CarryTurns(a[..], was, j, carry, i);
      var val := a[j] as nat + carry % 256;
      ghost var before := a[..];
      a[j] := (val % 256) as byte;
      assert a[..] == before[j := a[j]];
      carry := carry / 256 + val / 256;
      j := j - 1;
    }
    CarryEnds(a[..], was, j, carry, i);
  }

  // ---------------------------------------------------------------- expansion

  datatype Result = Ok(ips: seq<seq<byte>>) | TooLarge

  /** Largest subnets accepted: /22 for IPv4, /120 for IPv6. */
  predicate Accepted(bits: nat, ones: nat) {
    if bits == 32 then 22 <= ones else 120 <= ones
  }

  /** The first of the host numbers kept: IPv4 drops network and broadcast below /31, IPv6 the first address. */
  function First(bits: nat, ones: nat): nat {
    if bits == 128 || ones < 31 then 1 else 0
  }

  /** How many addresses a subnet with the given number of host bits expands to. */
  function Count(bits: nat, ones: nat): int
    requires ones <= bits
  {
    var hosts := Pow2(bits - ones);
    if bits == 128 then hosts - 1 else if ones < 31 then hosts - 2 else hosts
  }

  lemma {:induction false} Pow2Adds(a: nat, b: nat)
    ensures Pow2(a + b) == Pow2(a) * Pow2(b)
  {
    if a > 0 {
      Pow2Adds(a - 1, b);
      assert Pow2(a + b) == 2 * (Pow2(a - 1) * Pow2(b)) == 2 * Pow2(a - 1) * Pow2(b);
    }
  }

  lemma {:induction false} Pow256IsPow2(n: nat)
    ensures Pow256(n) == Pow2(8 * n)
  {
    if n > 0 {
      Pow256IsPow2(n - 1);
      Pow2Adds(8, 8 * (n - 1));
      assert Pow2(8) == 256;
    }
  }

  lemma NextMultiple(v: nat, p: nat, rest: nat)
    requires p > 0 && v % p == 0 && v < rest * p
    ensures v + p <= rest * p
  {
    var m := v / p;
    assert v == m * p;
    if m >= rest {
      MulLe(rest, m, p);
    } else {
      MulLe(m + 1, rest, p);
      assert (m + 1) * p == m * p + p;
    }
  }

  /** A subnet lies inside the address space, so numbering its hosts never wraps around. */
  lemma SubnetFits(v: nat, bits: nat, h: nat)
    requires h <= bits && v < Pow2(bits) && v % Pow2(h) == 0
    ensures v + Pow2(h) <= Pow2(bits)
  {
    var p, rest := Pow2(h), Pow2(bits - h);
    hide Pow2;
    Pow2Adds(h, bits - h);
    Pow2Adds(bits - h, h);
    NextMultiple(v, p, rest);
  }

  lemma Pow2Small(h: nat)
    requires h <= 10
    ensures Pow2(h) <= 1024
  {
    if h < 10 { Pow2Adds(h, 10 - h); }
    assert Pow2(5) == 32;
    Pow2Adds(5, 5);
  }

  /** net is the network address: its host bits are zero. */
  method ExpandCidr(net: seq<byte>, ones: nat) returns (r: Result)
    requires (|net| == 4 || |net| == 16) && ones <= 8 * |net| && Value(net) % Pow2(8 * |net| - ones) == 0
    ensures r.Ok? <==> Accepted(8 * |net|, ones)
    ensures r.Ok? <==> (if |net| == 4 then 22 <= ones else 120 <= ones)
    ensures r.Ok? ==> |r.ips| == Count(8 * |net|, ones)
    ensures r.Ok? && |net| == 4 ==> |r.ips| == if ones <= 30 then Pow2(32 - ones) - 2 else Pow2(32 - ones)
    ensures r.Ok? && |net| == 16 ==> |r.ips| == Pow2(128 - ones) - 1
    ensures r.Ok? && r.ips != [] ==>
              Value(r.ips[0]) == Value(net) + if |net| == 16 || ones <= 30 then 1 else 0
    ensures r.Ok? ==>
              forall k :: 0 <= k < |r.ips| ==>
                |r.ips[k]| == |net| && Value(r.ips[k]) == Value(net) + First(8 * |net|, ones) + k
    ensures r.Ok? ==> InSubnet(net, ones, r.ips) && Increasing(r.ips)
  {
    hide Value, Pow2, Pow256;
    var bits := 8 * |net|;
    if bits == 32 {
      if ones < 22 {
        return TooLarge;
      }
    } else {
      if ones < 120 {
        return TooLarge;
      }
    }
    var hosts := Pow2(bits - ones);
    Pow2Small(bits - ones);
    if hosts > 2048 {
      return TooLarge;
    }
    ValueBound(net);
    Pow256IsPow2(|net|);
    SubnetFits(Value(net), bits, bits - ones);
    var ips: seq<seq<byte>> := [];
    var i := 0;
    while i < hosts
      invariant 0 <= i <= hosts
      invariant |ips| == Kept(bits, ones, i)
      invariant forall k :: 0 <= k < |ips| ==>
                  |ips[k]| == |net| && Value(ips[k]) == Value(net) + First(bits, ones) + k
    {
      var next := NextAddress(net, i, bits, ones);
      if !(bits == 32 && ones < 31 && (i == 0 || i == hosts - 1)) && !(bits == 128 && i == 0) {
        ips := ips + [next];
      }
      i := i + 1;
    }
    KeptInAll(bits, ones);
    ExpansionIsExact(net, ones, ips);
    return Ok(ips);
  }

  /** How many of the first i host numbers are kept. */
  function Kept(bits: nat, ones: nat, i: nat): nat
    requires ones <= bits
  {
    if bits == 128 then (if i == 0 then 0 else i - 1)
    else if ones < 31 then
      (if i == 0 then 0 else if i == Pow2(bits - ones) && i >= 2 then i - 2 else i - 1)
    else i
  }

  lemma KeptInAll(bits: nat, ones: nat)
    requires ones <= bits && (bits == 32 || bits == 128)
    ensures Kept(bits, ones, Pow2(bits - ones)) == Count(bits, ones)
  {
    if bits == 32 && ones < 31 { Pow2Adds(1, bits - ones - 1); }
  }

  /** The i-th address of the subnet: a copy of the network address with i added. */
  method NextAddress(net: seq<byte>, i: nat, bits: nat, ones: nat) returns (next: seq<byte>)
    requires bits == 8 * |net| && ones <= bits && Value(net) + i < Pow256(|net|)
    ensures |next| == |net| && Value(next) == Value(net) + i
  {
    hide Value, Pow256;
    var a := new byte[|net|](k requires 0 <= k < |net| => net[k]);
    assert a[..] == net;
    AddWithCarry(a, i);
    DivModUnique(Value(net) + i, 0, Pow256(|net|), Value(net) + i);
    next := a[..];
  }

  /** Every address shares the network prefix. */
  ghost predicate InSubnet(net: seq<byte>, ones: nat, ips: seq<seq<byte>>)
    requires ones <= 8 * |net|
  {
    var p := Pow2(8 * |net| - ones);
    forall k :: 0 <= k < |ips| ==> Value(ips[k]) / p == Value(net) / p
  }

  /** Each address is larger than those before it, and none comes twice. */
  ghost predicate Increasing(ips: seq<seq<byte>>) {
    forall j, k :: 0 <= j < k < |ips| ==> Value(ips[j]) < Value(ips[k]) && ips[j] != ips[k]
  }

  lemma ExpansionIsExact(net: seq<byte>, ones: nat, ips: seq<seq<byte>>)
    requires (|net| == 4 || |net| == 16) && ones <= 8 * |net| && Value(net) % Pow2(8 * |net| - ones) == 0
    requires Accepted(8 * |net|, ones) && |ips| == Count(8 * |net|, ones)
    requires forall i :: 0 <= i < |ips| ==> Value(ips[i]) == Value(net) + First(8 * |net|, ones) + i
    ensures InSubnet(net, ones, ips) && Increasing(ips)
  {
    hide Value, Pow2;
    var p := Pow2(8 * |net| - ones);
    forall k | 0 <= k < |ips| ensures Value(ips[k]) / p == Value(net) / p {
      SameBlock(Value(net), First(8 * |net|, ones) + k, p);
    }
  }

  lemma SameBlock(v: nat, d: nat, p: nat)
    requires p > 0 && v % p == 0 && d < p
    ensures (v + d) / p == v / p
  {
    assert v == v / p * p;
    DivModUnique(v + d, v / p, p, d);
  }
}
