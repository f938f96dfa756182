/** Byte-level address arithmetic: prefix masks, containment, broadcast, increment.
    An address is a big-endian byte sequence of any length (4 for IPv4, 16 for IPv6).
    The bit operations are related to numbers one byte at a time; everything after that
    is reasoned about on sequences of base-256 digits. */
module Addresses {

  type Addr = seq<bv8>

  function Pow2(n: nat): (p: nat)
    ensures p >= 1
  {
    if n == 0 then 1 else 2 * Pow2(n - 1)
  }

  function Pow256(n: nat): (p: nat)
    ensures p >= 1
  {
    if n == 0 then 1 else 256 * Pow256(n - 1)
  }

  /** The number a byte stands for, read off its bits. */
  function Num(b: bv8): nat {
    (if b & 1 == 0 then 0 else 1) + (if b & 2 == 0 then 0 else 2)
    + (if b & 4 == 0 then 0 else 4) + (if b & 8 == 0 then 0 else 8)
    + (if b & 16 == 0 then 0 else 16) + (if b & 32 == 0 then 0 else 32)
    + (if b & 64 == 0 then 0 else 64) + (if b & 128 == 0 then 0 else 128)
  }

  ghost function Digits(a: Addr): (d: seq<nat>)
    ensures |d| == |a|
    ensures forall i :: 0 <= i < |d| ==> d[i] == Num(a[i])
  {
    seq(|a|, i requires 0 <= i < |a| => Num(a[i]))
  }

  /** The number a big-endian digit sequence stands for. */
  ghost function Number(d: seq<nat>): nat {
    if d == [] then 0 else 256 * Number(d[..|d| - 1]) + d[|d| - 1]
  }

  ghost function Value(a: Addr): nat {
    Number(Digits(a))
  }

  /** One byte of a prefix mask: k leading ones. */
  function LeadingOnes(k: nat): bv8
    requires k <= 8
  {
    match k
    case 0 => 0x00 case 1 => 0x80 case 2 => 0xC0
    case 3 => 0xE0 case 4 => 0xF0 case 5 => 0xF8
    case 6 => 0xFC case 7 => 0xFE case _ => 0xFF
  }

  /** How many of the `ones` leading one bits fall into byte i. */
  function OnesInByte(ones: nat, i: nat): (k: nat)
    ensures k <= 8
  {
    if ones <= 8 * i then 0 else if ones >= 8 * i + 8 then 8 else ones - 8 * i
  }

  /** The prefix mask of section 3.1 of RFC 4632: `ones` one bits, then zeros, in n bytes. */
  function Mask(n: nat, ones: nat): (m: Addr)
    ensures |m| == n
    ensures forall i :: 0 <= i < n ==> m[i] == LeadingOnes(OnesInByte(ones, i))
  {
    seq(n, i requires 0 <= i < n => LeadingOnes(OnesInByte(ones, i)))
  }

  /** A parsed network: base address with the host bits cleared, and the prefix length. */
  datatype Network = Network(ip: Addr, ones: nat) {

    ghost predicate Valid() {
      && ones <= 8 * |ip|
      && forall i :: 0 <= i < |ip| ==> ip[i] & LeadingOnes(OnesInByte(ones, i)) == ip[i]
    }

    /** Number of addresses in the block. */
    ghost function Size(): nat
      requires Valid()
    {
      Pow2(8 * |ip| - ones)
    }

    /** First and last number of the block. */
    ghost function First(): nat {
      Value(ip)
    }

    ghost function Last(): int
      requires Valid()
    {
      First() + Size() - 1
    }

    /** Byte i of the address agrees with the base address under the mask. */
    predicate Agrees(a: Addr, i: nat)
      requires i < |ip| == |a|
    {
      var mask := Mask(|ip|, ones);
      ip[i] & mask[i] == a[i] & mask[i]
    }

    predicate Contains(a: Addr) {
      |a| == |ip| && forall i :: 0 <= i < |ip| ==> Agrees(a, i)
    }
  }

  // ---------------------------------------------------------------- bytes

  lemma NumInjective(b: bv8, c: bv8)
    requires Num(b) == Num(c)
    ensures b == c
  {
  }

  /** Size of the run of bytes that agree on k leading bits. */
  function Span(k: nat): (s: nat)
    requires k <= 8
  {
    match k
    case 0 => 256 case 1 => 128 case 2 => 64
    case 3 => 32 case 4 => 16 case 5 => 8
    case 6 => 4 case 7 => 2 case _ => 1
  }

  lemma SpanIsPow2(k: nat)
    requires k <= 8
    ensures Span(k) == Pow2(8 - k)
  {
    assert Pow2(8) == 2 * Pow2(7) == 4 * Pow2(6) == 8 * Pow2(5) == 16 * Pow2(4);
    assert Pow2(4) == 2 * Pow2(3) == 4 * Pow2(2) == 8 * Pow2(1) == 16 * Pow2(0);
  }

  lemma FilledByte(k: nat, b: bv8)
    requires k <= 8 && b & LeadingOnes(k) == b
    ensures Num(b | !LeadingOnes(k)) == Num(b) + Span(k) - 1 <= 255
    ensures k == 0 ==> Num(b) == 0
  {
  }

  lemma NumOrder(b: bv8, c: bv8)
    ensures b <= c <==> Num(b) <= Num(c)
  {
  }

  lemma MaskedRange(k: nat, b: bv8, x: bv8)
    requires k <= 8 && b & LeadingOnes(k) == b
    ensures b & LeadingOnes(k) == x & LeadingOnes(k) <==> b <= x <= b | !LeadingOnes(k)
  {
  }

  /** A byte agrees with a masked byte under the mask iff it lies in the masked byte's run. */
  lemma MaskedByte(k: nat, b: bv8, x: bv8)
    requires k <= 8 && b & LeadingOnes(k) == b
    ensures b & LeadingOnes(k) == x & LeadingOnes(k) <==> Num(b) <= Num(x) < Num(b) + Span(k)
  {
    hide Num, LeadingOnes, Span;
    MaskedRange(k, b, x);
    NumOrder(b, x);
    NumOrder(x, b | !LeadingOnes(k));
    FilledByte(k, b);
  }

  lemma NextByte(b: bv8)
    ensures Num(b) <= 255
    ensures Num(b + 1) == if b + 1 == 0 then 0 else Num(b) + 1
    ensures b + 1 == 0 <==> Num(b) == 255
  {
  }

  // ---------------------------------------------------------------- digits

  predicate Bytes(d: seq<nat>) {
    forall i :: 0 <= i < |d| ==> d[i] <= 255
  }

  lemma Pow2Byte(k: nat)
    ensures Pow2(k + 8) == 256 * Pow2(k)
  {
    assert Pow2(k + 8) == 2 * Pow2(k + 7) == 4 * Pow2(k + 6) == 8 * Pow2(k + 5) == 16 * Pow2(k + 4);
    assert Pow2(k + 4) == 2 * Pow2(k + 3) == 4 * Pow2(k + 2) == 8 * Pow2(k + 1);
  }

  lemma {:induction false} Pow256IsPow2(n: nat)
    ensures Pow256(n) == Pow2(8 * n)
  {
    if n > 0 {
      Pow256IsPow2(n - 1);
      Pow2Byte(8 * (n - 1));
    }
  }

  lemma {:induction false} NumberBound(d: seq<nat>)
    requires Bytes(d)
    ensures Number(d) < Pow256(|d|)
  {
    if d != [] {
      NumberBound(d[..|d| - 1]);
    }
  }

  lemma {:induction false} NumberInjective(d: seq<nat>, e: seq<nat>)
    requires |d| == |e| && Bytes(d) && Bytes(e) && Number(d) == Number(e)
    ensures d == e
  {
    if d != [] {
      var n := |d| - 1;
      NumberInjective(d[..n], e[..n]);
      assert d == d[..n] + [d[n]] && e == e[..n] + [e[n]];
    }
  }

  lemma DigitsAreBytes(a: Addr)
    ensures Bytes(Digits(a))
  {
    forall i | 0 <= i < |a|
      ensures Digits(a)[i] <= 255
    {
      NextByte(a[i]);
    }
  }

  lemma ValueBound(a: Addr)
    ensures Value(a) < Pow256(|a|)
  {
    DigitsAreBytes(a);
    NumberBound(Digits(a));
  }

  /** Addresses of one length are equal iff their numbers are. */
  lemma ValueInjective(a: Addr, b: Addr)
    requires |a| == |b| && Value(a) == Value(b)
    ensures a == b
  {
    DigitsAreBytes(a);
    DigitsAreBytes(b);
    NumberInjective(Digits(a), Digits(b));
    forall i | 0 <= i < |a|
      ensures a[i] == b[i]
    {
      assert Digits(a)[i] == Digits(b)[i];
      NumInjective(a[i], b[i]);
    }
  }

  // ---------------------------------------------------------------- blocks of digits

  /** Digits of a base address: every byte has room for the run its mask leaves free. */
  predicate Base(d: seq<nat>, ones: nat) {
    && ones <= 8 * |d|
    && forall i :: 0 <= i < |d| ==>
         d[i] + Span(OnesInByte(ones, i)) <= 256 && (OnesInByte(ones, i) == 0 ==> d[i] == 0)
  }

  predicate InRuns(d: seq<nat>, x: seq<nat>, ones: nat)
    requires |d| == |x|
  {
    forall i :: 0 <= i < |d| ==> d[i] <= x[i] < d[i] + Span(OnesInByte(ones, i))
  }

  /** How much of the prefix is left without the last byte. */
  function Shorter(ones: nat, n: nat): nat {
    if ones <= 8 * n then ones else 8 * n
  }

  lemma BaseShorter(d: seq<nat>, ones: nat)
    requires Base(d, ones) && d != []
    ensures Base(d[..|d| - 1], Shorter(ones, |d| - 1))
  {
    var n := |d| - 1;
    assert forall i :: 0 <= i < n ==> OnesInByte(Shorter(ones, n), i) == OnesInByte(ones, i);
  }

  lemma InRunsShorter(d: seq<nat>, x: seq<nat>, ones: nat)
    requires |d| == |x| > 0
    ensures var n := |d| - 1;
            InRuns(d, x, ones)
            <==> InRuns(d[..n], x[..n], Shorter(ones, n)) && d[n] <= x[n] < d[n] + Span(OnesInByte(ones, n))
  {
    var n := |d| - 1;
    assert forall i :: 0 <= i < n ==> OnesInByte(Shorter(ones, n), i) == OnesInByte(ones, i);
    if InRuns(d, x, ones) {
      assert d[n] <= x[n];
    } else {
      var i :| 0 <= i < |d| && !(d[i] <= x[i] < d[i] + Span(OnesInByte(ones, i)));
      assert i < n ==> !(d[..n][i] <= x[..n][i] < d[..n][i] + Span(OnesInByte(Shorter(ones, n), i)));
    }
  }

  /** The size of a block in terms of the block without its last byte. */
  lemma SizeShorter(n: nat, ones: nat)
    requires ones <= 8 * n + 8
    ensures ones <= 8 * n ==> Pow2(8 * n + 8 - ones) == 256 * Pow2(8 * n - ones)
    ensures ones > 8 * n ==> Pow2(8 * n + 8 - ones) == Span(ones - 8 * n)
  {
    if ones <= 8 * n {
      Pow2Byte(8 * n - ones);
    } else {
      SpanIsPow2(ones - 8 * n);
    }
  }

  /** The block ends inside the address space. */
  lemma {:induction false} BlockFits(d: seq<nat>, ones: nat)
    requires Base(d, ones)
    ensures Number(d) + Pow2(8 * |d| - ones) <= Pow256(|d|)
  {
    if d != [] {
      var n := |d| - 1;
      BaseShorter(d, ones);
      BlockFits(d[..n], Shorter(ones, n));
      SizeShorter(n, ones);
      assert d[n] + Span(OnesInByte(ones, n)) <= 256;
    }
  }

  /** Two numbers that grow by a last digit: the interval of the longer ones is the interval of the
      shorter ones with the run of the digit. Either the digit is free, or only one shorter number
      is left. */
  lemma OneMoreDigit(d: nat, x: nat, size: nat, dd: nat, xx: nat, span: nat)
    requires xx <= 255 && dd + span <= 256 && (span == 256 || size == 1)
    ensures (d <= x < d + size && dd <= xx < dd + span)
         == (256 * d + dd <= 256 * x + xx < 256 * d + dd + if span == 256 then 256 * size else span)
  {
  }

  lemma SizeGrows(n: nat, ones: nat)
    requires ones <= 8 * n + 8
    ensures var span, size := Span(OnesInByte(ones, n)), Pow2(8 * n - Shorter(ones, n));
            && Pow2(8 * n + 8 - ones) == (if span == 256 then 256 * size else span)
            && (span == 256 || size == 1)
  {
    SizeShorter(n, ones);
    assert Pow2(0) == 1;
    hide Pow2;
  }

  /** The numbers and the block size of the sequences, from those without the last digit. */
  lemma LastDigit(d: seq<nat>, x: seq<nat>, ones: nat)
    requires |d| == |x| > 0 && Base(d, ones) && Bytes(x)
    ensures var n := |d| - 1;
            var size, span := Pow2(8 * n - Shorter(ones, n)), Span(OnesInByte(ones, n));
            && Number(d) == 256 * Number(d[..n]) + d[n] && Number(x) == 256 * Number(x[..n]) + x[n]
            && Pow2(8 * |d| - ones) == (if span == 256 then 256 * size else span)
            && (span == 256 || size == 1) && d[n] + span <= 256 && x[n] <= 255
            && Bytes(x[..n])
  {
    var n := |d| - 1;
    SizeGrows(n, ones);
    hide Pow2, Span, OnesInByte, Shorter;
  }

  /** Digit-wise runs are one numeric interval. */
  lemma {:induction false} RunsAreBlock(d: seq<nat>, x: seq<nat>, ones: nat)
    requires |d| == |x| && Base(d, ones) && Bytes(x)
    ensures InRuns(d, x, ones) <==> Number(d) <= Number(x) < Number(d) + Pow2(8 * |d| - ones)
  {
    hide InRuns, Bytes, Number, Span, OnesInByte, Pow2, Shorter;
    if d == [] {
      NoDigits(d, x, ones);
    } else {
      var n := |d| - 1;
      BaseShorter(d, ones);
      InRunsShorter(d, x, ones);
      LastDigit(d, x, ones);
      hide Base;
      RunsAreBlock(d[..n], x[..n], Shorter(ones, n));
      OneMoreDigit(Number(d[..n]), Number(x[..n]), Pow2(8 * n - Shorter(ones, n)),
                   d[n], x[n], Span(OnesInByte(ones, n)));
    }
  }

  lemma NoDigits(d: seq<nat>, x: seq<nat>, ones: nat)
    requires |d| == |x| == 0 && ones == 0
    ensures InRuns(d, x, ones) && Number(d) == Number(x) == 0 && Pow2(8 * |d| - ones) == 1
  {
  }

  // ---------------------------------------------------------------- containment and broadcast

  lemma NetworkBase(net: Network)
    requires net.Valid()
    ensures Base(Digits(net.ip), net.ones)
  {
    forall i | 0 <= i < |net.ip|
      ensures Num(net.ip[i]) + Span(OnesInByte(net.ones, i)) <= 256
      ensures OnesInByte(net.ones, i) == 0 ==> Num(net.ip[i]) == 0
    {
      FilledByte(OnesInByte(net.ones, i), net.ip[i]);
    }
  }

  /** The block lies inside the address space. */
  lemma NetworkFits(net: Network)
    requires net.Valid()
    ensures net.First() <= net.Last() < Pow256(|net.ip|)
  {
    NetworkBase(net);
    BlockFits(Digits(net.ip), net.ones);
  }

  /** Masked comparison, byte by byte, decides membership of the numeric block, for every
      address length and also when the prefix ends inside a byte. */
  lemma ContainsIffInBlock(net: Network, a: Addr)
    requires net.Valid() && |a| == |net.ip|
    ensures net.Contains(a) <==> net.First() <= Value(a) <= net.Last()
  {
    hide Base, Bytes, InRuns, Pow2, Number;
    MaskedBytes(net, a);
    NetworkBase(net);
    DigitsAreBytes(a);
    RunsAreBlock(Digits(net.ip), Digits(a), net.ones);
  }

  lemma AgreesIffInRun(net: Network, a: Addr, i: nat)
    requires net.Valid() && i < |net.ip| == |a|
    ensures net.Agrees(a, i)
       <==> Digits(net.ip)[i] <= Digits(a)[i] < Digits(net.ip)[i] + Span(OnesInByte(net.ones, i))
  {
    hide Num, LeadingOnes, Span, OnesInByte;
    MaskedByte(OnesInByte(net.ones, i), net.ip[i], a[i]);
  }

  lemma MaskedBytes(net: Network, a: Addr)
    requires net.Valid() && |a| == |net.ip|
    ensures net.Contains(a) <==> InRuns(Digits(net.ip), Digits(a), net.ones)
  {
    hide Network.Agrees, Num;
    if net.Contains(a) {
      forall i | 0 <= i < |a|
        ensures Digits(net.ip)[i] <= Digits(a)[i] < Digits(net.ip)[i] + Span(OnesInByte(net.ones, i))
      {
        AgreesIffInRun(net, a, i);
      }
    } else {
      var i :| 0 <= i < |a| && !net.Agrees(a, i);
      AgreesIffInRun(net, a, i);
    }
  }

  /** Whether the address lies in the network. */
  method Contains(net: Network, a: Addr) returns (inside: bool)
    requires net.Valid() && |a| == |net.ip|
    ensures inside <==> net.First() <= Value(a) <= net.Last()
  {
    inside := net.Contains(a);
    ContainsIffInBlock(net, a);
  }

  /** The directed broadcast address of section 3.2.1.3 of RFC 1122: all host bits one. */
  function Broadcast(net: Network): (a: Addr)
    ensures |a| == |net.ip|
  {
    seq(|net.ip|, i requires 0 <= i < |net.ip| => net.ip[i] | !LeadingOnes(OnesInByte(net.ones, i)))
  }

  predicate Filled(d: seq<nat>, x: seq<nat>, ones: nat)
    requires |d| == |x|
  {
    forall i :: 0 <= i < |d| ==> x[i] + 1 == d[i] + Span(OnesInByte(ones, i))
  }

  /** Filling every run to its end reaches the end of the block. */
  lemma {:induction false} FilledRuns(d: seq<nat>, x: seq<nat>, ones: nat)
    requires |d| == |x| && Base(d, ones) && Filled(d, x, ones)
    ensures Number(x) + 1 == Number(d) + Pow2(8 * |d| - ones)
  {
    if d != [] {
      var n := |d| - 1;
      BaseShorter(d, ones);
      assert forall i :: 0 <= i < n ==> OnesInByte(Shorter(ones, n), i) == OnesInByte(ones, i);
      FilledRuns(d[..n], x[..n], Shorter(ones, n));
      SizeShorter(n, ones);
      assert x[n] + 1 == d[n] + Span(OnesInByte(ones, n));
    }
  }

  /** The broadcast address is the last number of the block. */
  lemma BroadcastIsLast(net: Network)
    requires net.Valid()
    ensures Value(Broadcast(net)) == net.Last()
  {
    NetworkBase(net);
    forall i | 0 <= i < |net.ip|
      ensures Num(Broadcast(net)[i]) == Num(net.ip[i]) + Span(OnesInByte(net.ones, i)) - 1
    {
      FilledByte(OnesInByte(net.ones, i), net.ip[i]);
    }
    FilledRuns(Digits(net.ip), Digits(Broadcast(net)), net.ones);
  }

  /** Whether `ip` is the broadcast address of the network. */
  method IsBroadcast(ip: Addr, net: Network) returns (b: bool)
    requires net.Valid() && |ip| == |net.ip|
    ensures b <==> Value(ip) == net.Last()
  {
    var mask := Mask(|net.ip|, net.ones);
    var broadcast := new bv8[|net.ip|](_ => 0);
    for i := 0 to |net.ip|
      invariant forall j :: 0 <= j < i ==> broadcast[j] == Broadcast(net)[j]
    {
      broadcast[i] := net.ip[i] | !mask[i];
    }
    assert broadcast[..] == Broadcast(net);
    b := ip == broadcast[..];
    BroadcastIsLast(net);
    if Value(ip) == Value(Broadcast(net)) {
      ValueInjective(ip, Broadcast(net));
    }
  }

  // ---------------------------------------------------------------- increment

  /** The number after the last one of the space is 0. */
  function Wrapped(next: nat, space: nat): nat {
    if next == space then 0 else next
  }

  /** Address plus one, with the carry running from the last byte; wraps at the top. */
  method IncrementIP(ip: Addr) returns (r: Addr)
    ensures |r| == |ip|
    ensures Value(r) == Wrapped(Value(ip) + 1, Pow256(|ip|))
  {
    var newIP := new bv8[|ip|](i requires 0 <= i < |ip| => ip[i]);
    var i := |ip| - 1;
    while i >= 0
      invariant -1 <= i < |ip|
      invariant forall j :: 0 <= j <= i ==> newIP[j] == ip[j]
      invariant forall j :: i < j < |ip| ==> newIP[j] == 0 && ip[j] + 1 == 0
    {
      newIP[i] := newIP[i] + 1;
      if newIP[i] != 0 {
        break;
      }
      i := i - 1;
    }
    r := newIP[..];
    CarryValue(ip, r, i);
  }

  lemma CarryValue(ip: Addr, r: Addr, i: int)
    requires |ip| == |r| && -1 <= i < |ip|
    requires forall j :: 0 <= j < i ==> r[j] == ip[j]
    requires i >= 0 ==> r[i] == ip[i] + 1 && r[i] != 0
    requires forall j :: i < j < |ip| ==> r[j] == 0 && ip[j] + 1 == 0
    ensures Value(r) == Wrapped(Value(ip) + 1, Pow256(|ip|))
  {
    forall j | i < j < |ip|
      ensures Num(ip[j]) == 255 && Num(r[j]) == 0
    {
      NextByte(ip[j]);
    }
    if i >= 0 {
      NextByte(ip[i]);
    }
    CarryDigits(ip, r, i);
  }

  lemma CarryDigits(ip: Addr, r: Addr, i: int)
    requires |ip| == |r| && -1 <= i < |ip|
    requires forall j :: 0 <= j < i ==> r[j] == ip[j]
    requires i >= 0 ==> Num(r[i]) == Num(ip[i]) + 1
    requires forall j :: i < j < |ip| ==> Num(ip[j]) == 255 && Num(r[j]) == 0
    ensures Value(r) == Wrapped(Value(ip) + 1, Pow256(|ip|))
  {
    CarryStops(Digits(ip), Digits(r), i);
    ValueBound(r);
  }

  /** Digits after position i overflowed, digit i took the carry, digits before it are kept. */
  lemma {:induction false} CarryStops(d: seq<nat>, e: seq<nat>, i: int)
    requires |d| == |e| && -1 <= i < |d|
    requires forall j :: 0 <= j < i ==> d[j] == e[j]
    requires i >= 0 ==> e[i] == d[i] + 1
    requires forall j :: i < j < |d| ==> d[j] == 255 && e[j] == 0
    ensures i >= 0 ==> Number(e) == Number(d) + 1
    ensures i < 0 ==> Number(e) == 0 && Number(d) == Pow256(|d|) - 1
  {
    if d != [] {
      var n := |d| - 1;
      if i < n {
        CarryStops(d[..n], e[..n], i);
      } else {
        assert d[..n] == e[..n];
      }
    }
  }
}
