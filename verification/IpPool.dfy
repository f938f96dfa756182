/** The virtual-IP allocator of one virtual network, and the table of such pools. */
module IpPool {
  import opened Addresses
  import opened Wrappers

  datatype PoolError = Exhausted | InvalidCIDR

  // ---------------------------------------------------------------- the walk

  /** The number the enumeration of a block is at after k steps: it starts one after the network
      address, and every step is IncrementIP's. */
  ghost function Walk(net: Network, k: nat): nat {
    var space := Pow256(|net.ip|);
    if k == 0 then Wrapped(net.First() + 1, space) else Wrapped(Walk(net, k - 1) + 1, space)
  }

  lemma WalkNext(net: Network, k: nat)
    ensures Walk(net, 0) == Wrapped(net.First() + 1, Pow256(|net.ip|))
    ensures k > 0 ==> Walk(net, k) == Wrapped(Walk(net, k - 1) + 1, Pow256(|net.ip|))
  {
  }

  /** The enumeration ends here: the number lies outside the block, or is a free host address. */
  ghost predicate WalkEnds(net: Network, taken: set<nat>, k: nat)
    requires net.Valid()
  {
    var v := Walk(net, k);
    !(net.First() <= v <= net.Last()) || (net.First() < v < net.Last() && v !in taken)
  }

  // ---------------------------------------------------------------- numbers of addresses

  lemma {:induction false} ByteExists(k: nat) returns (b: bv8)
    requires k < 256
    ensures Num(b) == k
  {
    if k == 0 {
      b := 0;
    } else {
      var a := ByteExists(k - 1);
      NextByte(a);
      b := a + 1;
    }
  }

  /** Every number below 256^n is the number of an n-byte address. */
  lemma {:induction false} AddressExists(n: nat, v: nat) returns (a: Addr)
    requires v < Pow256(n)
    ensures |a| == n && Value(a) == v
  {
    if n == 0 {
      a := [];
    } else {
      var rest := AddressExists(n - 1, v / 256);
      var last := ByteExists(v % 256);
      a := rest + [last];
      assert Digits(a)[..n - 1] == Digits(rest);
    }
  }

  /** The n-byte address with number v. */
  ghost function AddrOf(n: nat, v: nat): (a: Addr)
    requires v < Pow256(n)
    ensures |a| == n && Value(a) == v
  {
    assert exists a: Addr :: |a| == n && Value(a) == v by {
      var a := AddressExists(n, v);
    }
    var a: Addr :| |a| == n && Value(a) == v;
    a
  }

  /** Smallest number in lo..hi-1 that is not taken. */
  ghost function LowestFree(lo: nat, hi: int, taken: set<nat>): (r: Option<nat>)
    ensures r.Some? ==> lo <= r.value < hi && r.value !in taken
    decreases hi - lo
  {
    if lo >= hi then None
    else if lo !in taken then Some(lo)
    else LowestFree(lo + 1, hi, taken)
  }

  lemma {:induction false} LowestFreeMeans(lo: nat, hi: int, taken: set<nat>)
    ensures match LowestFree(lo, hi, taken)
            case None => forall u :: lo <= u < hi ==> u in taken
            case Some(v) => forall u :: lo <= u < v ==> u in taken
    decreases hi - lo
  {
    if lo < hi && lo in taken {
      LowestFreeMeans(lo + 1, hi, taken);
    }
  }

  // ---------------------------------------------------------------- runs of one pool

  /** What callers can ask of a pool; an address is named by its number. */
  datatype PoolOp = Allocate | Release(address: nat)

  ghost function Answer(net: Network, taken: set<nat>, op: PoolOp): Option<nat>
    requires net.Valid()
  {
    match op
    case Allocate => LowestFree(net.First() + 1, net.Last(), taken)
    case Release(_) => None
  }

  ghost function After(net: Network, taken: set<nat>, op: PoolOp): set<nat>
    requires net.Valid()
  {
    match op
    case Allocate =>
      var r := Answer(net, taken, op);
      if r.Some? then taken + {r.value} else taken
    case Release(v) => taken - {v}
  }

  /** Addresses taken after a run of operations. */
  ghost function AfterAll(net: Network, taken: set<nat>, ops: seq<PoolOp>): set<nat>
    requires net.Valid()
  {
    if ops == [] then taken
    else After(net, AfterAll(net, taken, ops[..|ops| - 1]), ops[|ops| - 1])
  }

  /** The answer to operation i of a run. */
  ghost function AnswerAt(net: Network, taken: set<nat>, ops: seq<PoolOp>, i: nat): Option<nat>
    requires net.Valid() && i < |ops|
  {
    Answer(net, AfterAll(net, taken, ops[..i]), ops[i])
  }

  /** A taken address stays taken until it is released. */
  lemma {:induction false} TakenUntilReleased(net: Network, taken: set<nat>, ops: seq<PoolOp>, v: nat, i: nat, j: nat)
    requires net.Valid() && i <= j <= |ops|
    requires v in AfterAll(net, taken, ops[..i])
    requires forall k :: i <= k < j ==> ops[k] != Release(v)
    ensures v in AfterAll(net, taken, ops[..j])
  {
    if i < j {
      TakenUntilReleased(net, taken, ops, v, i, j - 1);
      assert ops[..j][..j - 1] == ops[..j - 1];
    }
  }

  /** No address is handed out twice without being released in between. */
  lemma NoReissue(net: Network, taken: set<nat>, ops: seq<PoolOp>, i: nat, j: nat)
    requires net.Valid() && i < j < |ops|
    requires AnswerAt(net, taken, ops, i).Some?
    requires AnswerAt(net, taken, ops, i) == AnswerAt(net, taken, ops, j)
    ensures exists k :: i < k < j && ops[k] == Release(AnswerAt(net, taken, ops, i).value)
  {
    var v := AnswerAt(net, taken, ops, i).value;
    if forall k :: i < k < j ==> ops[k] != Release(v) {
      assert ops[..i + 1][..i] == ops[..i];
      TakenUntilReleased(net, taken, ops, v, i + 1, j);
    }
  }

  /** An address a device already holds when the pool is built is never handed out before its release. */
  lemma SeedsProtected(net: Network, taken: set<nat>, ops: seq<PoolOp>, j: nat)
    requires net.Valid() && j < |ops|
    requires AnswerAt(net, taken, ops, j).Some? && AnswerAt(net, taken, ops, j).value in taken
    ensures exists k :: 0 <= k < j && ops[k] == Release(AnswerAt(net, taken, ops, j).value)
  {
    var v := AnswerAt(net, taken, ops, j).value;
    if forall k :: 0 <= k < j ==> ops[k] != Release(v) {
      TakenUntilReleased(net, taken, ops, v, 0, j);
    }
  }

  /** While nothing is released the pool serves addresses in strictly ascending order, and once it
      has failed it keeps failing. */
  lemma {:induction false} AllocationsAscend(net: Network, taken: set<nat>, ops: seq<PoolOp>, i: nat, j: nat)
    requires net.Valid() && i < j < |ops|
    requires forall k :: i <= k <= j ==> ops[k] == Allocate
    ensures AnswerAt(net, taken, ops, j).Some?
        ==> AnswerAt(net, taken, ops, i).Some?
            && AnswerAt(net, taken, ops, i).value < AnswerAt(net, taken, ops, j).value
  {
    var a, b := AfterAll(net, taken, ops[..i]), AfterAll(net, taken, ops[..j]);
    forall v | v in a
      ensures v in b
    {
      TakenUntilReleased(net, taken, ops, v, i, j);
    }
    LowestFreeMeans(net.First() + 1, net.Last(), a);
    if AnswerAt(net, taken, ops, j).Some? && AnswerAt(net, taken, ops, i).Some? {
      var v := AnswerAt(net, taken, ops, i).value;
      assert ops[..i + 1][..i] == ops[..i];
      TakenUntilReleased(net, taken, ops, v, i + 1, j);
    }
  }

  /** A pool whose prefix leaves fewer than two host bits has nothing to give. */
  lemma TinyNetworks(net: Network, taken: set<nat>)
    requires net.Valid() && net.ones + 1 >= 8 * |net.ip|
    ensures LowestFree(net.First() + 1, net.Last(), taken) == None
  {
    assert Pow2(1) == 2 && Pow2(0) == 1;
  }

  // ---------------------------------------------------------------- the pool

  /** Different n-byte addresses have different texts. */
  ghost predicate Injective(text: Addr -> string, n: nat) {
    forall a, b :: |a| == |b| == n && text(a) == text(b) ==> a == b
  }

  class IPPool {
    const network: Network
    /** Textual form of an address, the key of the table. */
    const text: Addr -> string
    var allocatedIPs: map<string, bool>

    ghost predicate Valid() {
      network.Valid() && Injective(text, |network.ip|)
    }

    predicate Allocated(ip: string)
      reads this
    {
      ip in allocatedIPs && allocatedIPs[ip]
    }

    ghost function TextOf(v: nat): string
      requires network.Valid() && v <= network.Last()
    {
      NetworkFits(network);
      text(AddrOf(|network.ip|, v))
    }

    /** Numbers of the host addresses a table takes. */
    ghost function TakenIn(table: map<string, bool>): (s: set<nat>)
      requires network.Valid()
      ensures forall v :: v in s
                <==> network.First() < v < network.Last() && TextOf(v) in table && table[TextOf(v)]
    {
      set v: nat | network.First() < v < network.Last() && TextOf(v) in table && table[TextOf(v)]
    }

    ghost function Taken(): set<nat>
      requires network.Valid()
      reads this
    {
      TakenIn(allocatedIPs)
    }

    /** The pool of a network whose devices already hold the given addresses. */
    constructor (network: Network, text: Addr -> string, deviceIPs: seq<string>)
      requires network.Valid() && Injective(text, |network.ip|)
      ensures Valid() && this.network == network && this.text == text
      ensures forall ip :: Allocated(ip) <==> ip in deviceIPs
    {
      this.network := network;
      this.text := text;
      allocatedIPs := map[];
      new;
      for i := 0 to |deviceIPs|
        invariant forall ip :: Allocated(ip) <==> ip in deviceIPs[..i]
      {
        allocatedIPs := allocatedIPs[deviceIPs[i] := true];
        assert deviceIPs[..i + 1] == deviceIPs[..i] + [deviceIPs[i]];
      }
      assert deviceIPs[..|deviceIPs|] == deviceIPs;
    }

    /** Whether an address of the block can be handed out: it is neither the network nor the
        broadcast address, and its text is not taken. */
    method Assignable(ip: Addr) returns (free: bool)
      requires network.Valid() && |ip| == |network.ip|
      requires network.First() <= Value(ip) <= network.Last()
      ensures free <==> network.First() < Value(ip) < network.Last() && Value(ip) !in Taken()
      ensures text(ip) == TextOf(Value(ip))
    {
      NetworkFits(network);
      ValueInjective(ip, AddrOf(|network.ip|, Value(ip)));
      if Value(ip) == network.First() {
        ValueInjective(ip, network.ip);
      }
      var broadcast := IsBroadcast(ip, network);
      free := ip != network.ip && !broadcast && !Allocated(text(ip));
    }

    /** Walks the block from the first address up and stops at the first one that is neither the
        network nor the broadcast address nor taken. The precondition is exactly that the walk ends
        (ScanEndsIff): with prefix length 0 it wraps around and only ends if some address is free. */
    method Scan() returns (found: Option<string>)
      requires network.Valid()
      requires network.ones >= 1 || LowestFree(network.First() + 1, network.Last(), Taken()).Some?
      ensures match LowestFree(network.First() + 1, network.Last(), Taken())
              case None => found == None
              case Some(v) => found == Some(TextOf(v))
    {
      hide Value, Walk, Pow256;
      NetworkFits(network);
      WalkNext(network, 0);
      ghost var first, last := network.First(), network.Last();
      ghost var space, taken := Pow256(|network.ip|), Taken();
      ghost var next: nat := first + 1;
      var ip := IncrementIP(network.ip);
      var inside := Contains(network, ip);
      while inside
        invariant |ip| == |network.ip|
        invariant first < next <= last + 1
        invariant Value(ip) == Wrapped(next, space) == Walk(network, next - first - 1)
        invariant inside <==> first <= Value(ip) <= last
        invariant LowestFree(first + 1, last, taken) == LowestFree(next, last, taken)
        decreases last + 1 - next
      {
        StillInside(network, ip, next, taken);
        var free := Assignable(ip);
        if free {
          return Some(text(ip));
        }
        WalkNext(network, next - first);
        ip := IncrementIP(ip);
        next := next + 1;
        inside := Contains(network, ip);
      }
      LeftBlock(network, ip, next);
      return None;
    }

    /** Hands out the numerically lowest free address strictly between the network and the
        broadcast address, and fails exactly when there is none. */
    method Allocate() returns (r: Result<string, PoolError>)
      requires Valid()
      requires network.ones >= 1 || LowestFree(network.First() + 1, network.Last(), Taken()).Some?
      modifies this
      ensures Valid()
      ensures match LowestFree(network.First() + 1, network.Last(), old(Taken()))
              case None => r == Failure(Exhausted) && allocatedIPs == old(allocatedIPs)
              case Some(v) =>
                r == Success(TextOf(v)) && allocatedIPs == old(allocatedIPs)[TextOf(v) := true]
      ensures Taken() == After(network, old(Taken()), PoolOp.Allocate)
    {
      var found := Scan();
      ghost var lowest := LowestFree(network.First() + 1, network.Last(), Taken());
      if found.None? {
        return Failure(Exhausted);
      }
      TakeOne(allocatedIPs, lowest.value);
      allocatedIPs := allocatedIPs[found.value := true];
      return Success(found.value);
    }

    /** Taking a free address adds exactly its number. */
    lemma TakeOne(table: map<string, bool>, v: nat)
      requires Valid() && network.First() < v < network.Last()
      ensures TakenIn(table[TextOf(v) := true]) == TakenIn(table) + {v}
    {
      TextsDiffer(v);
    }

    /** Removing a text removes exactly its number. */
    lemma DropOne(table: map<string, bool>, v: nat)
      requires Valid() && v <= network.Last()
      ensures TakenIn(table - {TextOf(v)}) == TakenIn(table) - {v}
    {
      TextsDiffer(v);
    }

    /** Different numbers have different texts. */
    lemma TextsDiffer(v: nat)
      requires Valid() && v <= network.Last()
      ensures forall u: nat :: u <= network.Last() && TextOf(u) == TextOf(v) ==> u == v
    {
      NetworkFits(network);
      forall u: nat | u <= network.Last() && TextOf(u) == TextOf(v)
        ensures u == v
      {
        assert AddrOf(|network.ip|, u) == AddrOf(|network.ip|, v);
      }
    }

    /** Returns an address to the pool. */
    method Release(ip: string)
      requires Valid()
      modifies this
      ensures Valid() && allocatedIPs == old(allocatedIPs) - {ip}
      ensures forall v :: 0 <= v <= network.Last() && ip == TextOf(v)
                ==> Taken() == After(network, old(Taken()), PoolOp.Release(v))
      ensures (forall v :: 0 <= v <= network.Last() ==> ip != TextOf(v)) ==> Taken() == old(Taken())
    {
      allocatedIPs := allocatedIPs - {ip};
      forall v | 0 <= v <= network.Last() && ip == TextOf(v)
        ensures Taken() == After(network, old(Taken()), PoolOp.Release(v))
      {
        DropOne(old(allocatedIPs), v);
      }
    }
  }

  /** Outside the block, the enumeration has seen all of it. */
  lemma LeftBlock(net: Network, ip: Addr, next: nat)
    requires net.Valid() && |ip| == |net.ip| && !(net.First() <= Value(ip) <= net.Last())
    requires net.First() < next <= net.Last() + 1 && Value(ip) == Wrapped(next, Pow256(|ip|))
    ensures next == net.Last() + 1
  {
    NetworkFits(net);
  }

  /** Inside the block, the enumeration is at number `next`: stepping past the last address lands
      in the block again only if the block is everything. */
  lemma StillInside(net: Network, ip: Addr, next: nat, taken: set<nat>)
    requires net.Valid() && |ip| == |net.ip| && net.First() <= Value(ip) <= net.Last()
    requires net.First() < next <= net.Last() + 1 && Value(ip) == Wrapped(next, Pow256(|ip|))
    requires net.ones >= 1 || LowestFree(next, net.Last(), taken).Some?
    ensures next <= net.Last() && Value(ip) == next
  {
    NetworkFits(net);
    Pow256IsPow2(|ip|);
    if net.ones > 0 {
      Pow2Grows(8 * |ip| - net.ones, 8 * |ip|);
    }
  }

  lemma Pow2Grows(m: nat, n: nat)
    requires m < n
    ensures Pow2(m) < Pow2(n)
  {
  }

  /** As long as the numbers of the block last, the walk counts up through them. */
  lemma {:induction false} WalkCounts(net: Network, k: nat)
    requires net.Valid() && net.First() + 1 + k <= net.Last() + 1
    ensures Walk(net, k) == Wrapped(net.First() + 1 + k, Pow256(|net.ip|))
  {
    NetworkFits(net);
    if k > 0 {
      WalkCounts(net, k - 1);
    }
  }

  /** With prefix length 0 the walk is always inside the block. */
  lemma {:induction false} WalkStaysInAll(net: Network, k: nat)
    requires net.Valid() && net.ones == 0
    ensures net.First() == 0 && net.Last() == Pow256(|net.ip|) - 1
    ensures Walk(net, k) <= net.Last()
  {
    NetworkFits(net);
    Pow256IsPow2(|net.ip|);
    if k > 0 {
      WalkStaysInAll(net, k - 1);
    }
  }

  /** With prefix length 0 and every host address taken, each address the walk reaches, for ever, is
      contained in the network and is its network address, its broadcast address or taken. */
  lemma ZeroPrefixNeverExits(net: Network, taken: set<nat>, k: nat)
    requires net.Valid() && net.ones == 0
    requires LowestFree(net.First() + 1, net.Last(), taken) == None
    ensures Walk(net, k) < Pow256(|net.ip|) && net.Contains(AddrOf(|net.ip|, Walk(net, k)))
    ensures var v := Walk(net, k); v == net.First() || v == net.Last() || v in taken
  {
    WalkStaysInAll(net, k);
    LowestFreeMeans(net.First() + 1, net.Last(), taken);
    hide Walk;
    ContainsIffInBlock(net, AddrOf(|net.ip|, Walk(net, k)));
  }

  lemma WalkReachesFree(net: Network, taken: set<nat>, v: nat)
    requires net.Valid() && net.First() < v < net.Last() && v !in taken
    ensures WalkEnds(net, taken, v - net.First() - 1)
  {
    NetworkFits(net);
    WalkCounts(net, v - net.First() - 1);
  }

  lemma WalkLeaves(net: Network, taken: set<nat>)
    requires net.Valid() && net.ones >= 1
    ensures WalkEnds(net, taken, net.Size() - 1)
  {
    NetworkFits(net);
    WalkCounts(net, net.Size() - 1);
    Pow256IsPow2(|net.ip|);
    Pow2Grows(8 * |net.ip| - net.ones, 8 * |net.ip|);
    hide Walk, Pow2;
  }

  /** The search ends iff the prefix has at least one bit or some host address is free. */
  lemma ScanEndsIff(net: Network, taken: set<nat>)
    requires net.Valid()
    ensures (exists k: nat :: WalkEnds(net, taken, k))
       <==> net.ones >= 1 || LowestFree(net.First() + 1, net.Last(), taken).Some?
  {
    LowestFreeMeans(net.First() + 1, net.Last(), taken);
    var lowest := LowestFree(net.First() + 1, net.Last(), taken);
    if net.ones >= 1 {
      WalkLeaves(net, taken);
    } else if lowest.Some? {
      WalkReachesFree(net, taken, lowest.value);
    } else {
      forall k: nat
        ensures !WalkEnds(net, taken, k)
      {
        WalkStaysInAll(net, k);
        ZeroPrefixNeverExits(net, taken, k);
      }
    }
  }

  // ---------------------------------------------------------------- the table of pools

  /** Pools by virtual network, built on first use from the addresses devices hold. */
  class TopologyService {
    const text: Addr -> string
    var ipPools: map<nat, IPPool>

    ghost predicate Valid()
      reads this
    {
      && (forall id :: id in ipPools ==> ipPools[id].Valid() && ipPools[id].text == text)
      && (forall i, j :: i in ipPools && j in ipPools && i != j ==> ipPools[i] != ipPools[j])
    }

    /** `network` is the parse of the CIDR, None when it is malformed. */
    method GetOrInitIPPool(id: nat, network: Option<Network>, deviceIPs: seq<string>)
      returns (r: Result<IPPool, PoolError>)
      requires Valid()
      requires network.Some? ==> network.value.Valid() && Injective(text, |network.value.ip|)
      modifies this
      ensures Valid()
      ensures id in old(ipPools) ==> r == Success(old(ipPools)[id]) && ipPools == old(ipPools)
      ensures id !in old(ipPools) && network.None? ==> r == Failure(InvalidCIDR) && ipPools == old(ipPools)
      ensures id !in old(ipPools) && network.Some? ==>
                && r.Success? && fresh(r.value) && ipPools == old(ipPools)[id := r.value]
                && r.value.network == network.value
                && forall ip :: r.value.Allocated(ip) <==> ip in deviceIPs
    {
      if id in ipPools {
        return Success(ipPools[id]);
      }
      if network.None? {
        return Failure(InvalidCIDR);
      }
      var pool := new IPPool(network.value, text, deviceIPs);
      ipPools := ipPools[id := pool];
      return Success(pool);
    }

    /** Releasing in a network without a pool does nothing; other pools are never touched. */
    method ReleaseVirtualIP(id: nat, ip: string)
      requires Valid()
      modifies if id in ipPools then {ipPools[id]} else {}
      ensures Valid() && ipPools == old(ipPools)
      ensures forall j :: j in ipPools ==>
                ipPools[j].allocatedIPs == if j == id then old(ipPools[j].allocatedIPs) - {ip}
                                           else old(ipPools[j].allocatedIPs)
    {
      if id in ipPools {
        ipPools[id].Release(ip);
      }
    }
  }
}
