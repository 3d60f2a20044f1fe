/** The plugin's IP allocation pools: the hosts of a subnet around its gateway and the reserved DHCP address. */
module Pools {
  import opened Wrappers
  import opened Arithmetic

  datatype Net = Net(first: nat, last: nat)

  datatype Pool = Pool(start: int, end: int)

  predicate IsHost(net: Net, a: int) {
    net.first < a < net.last
  }

  /** The address the Director keeps for its DHCP server. */
  function ReservedIp(net: Net, gateway: Option<int>): int {
    if gateway == Some(net.first + 1) then net.first + 2 else net.first + 1
  }

  predicate Wanted(net: Net, gateway: Option<int>, a: int) {
    IsHost(net, a) && a != ReservedIp(net, gateway) && gateway != Some(a)
  }

  predicate Covers(pools: seq<Pool>, a: int) {
    exists k :: 0 <= k < |pools| && pools[k].start <= a <= pools[k].end
  }

  /** Every host but the gateway and the reserved address is handed out, and nothing else. */
  ghost predicate Exact(pools: seq<Pool>, net: Net, gateway: Option<int>) {
    forall a :: Covers(pools, a) <==> Wanted(net, gateway, a)
  }

  /** At most two pools, none empty, in order and with at least one address between them. */
  predicate WellFormed(pools: seq<Pool>) {
    && |pools| <= 2
    && (forall k :: 0 <= k < |pools| ==> pools[k].start <= pools[k].end)
    && (|pools| == 2 ==> pools[0].end + 1 < pools[1].start)
  }

  function Size(pools: seq<Pool>): int {
    if pools == [] then 0 else pools[0].end - pools[0].start + 1 + Size(pools[1..])
  }

  /**
   * _allocate_pools_for_subnet. A gateway at or below the network address makes it hand out the reserved
   * address too, so the pools are exact precisely when the gateway lies above it (or there is no host at all).
   */
  method AllocatePools(net: Net, gateway: Option<int>) returns (pools: seq<Pool>)
    requires net.first <= net.last
    ensures WellFormed(pools)
    ensures forall a :: Covers(pools, a) ==> IsHost(net, a)
    ensures Exact(pools, net, gateway) <==>
            gateway.None? || gateway.value > net.first || net.last <= net.first + 1
    ensures gateway == Some(net.last - 1) ==> Size(pools) == Max(0, net.last - net.first + 1 - 4)
    ensures gateway == Some(net.first + 1) ==> forall a :: Covers(pools, a) <==> net.first + 3 <= a < net.last
    ensures gateway.Some? && net.first + 1 < gateway.value ==>
              forall a :: Covers(pools, a) <==> net.first + 2 <= a < net.last && a != gateway.value
    ensures gateway.None? ==> forall a :: Covers(pools, a) <==> net.first + 2 <= a < net.last
    ensures gateway.Some? && gateway.value <= net.first ==> forall a :: Covers(pools, a) <==> IsHost(net, a)
  {
    pools := [];
    var boundary := if gateway.Some? then gateway.value else net.last;
    var potentialDhcpIp := net.first + 1;
    var firstIp;
    if boundary == potentialDhcpIp {
      firstIp := net.first + 3;
      boundary := net.first + 2;
    } else {
      firstIp := net.first + 2;
    }
    var lastIp := net.last - 1;
    var splitIp := Min(Max(boundary, net.first), net.last);
    if splitIp > firstIp {
      pools := pools + [Pool(firstIp, splitIp - 1)];
    }
    if splitIp < lastIp {
      pools := pools + [Pool(splitIp + 1, lastIp)];
    }
    assert forall a :: Covers(pools, a) <==>
        || (splitIp > firstIp && firstIp <= a <= splitIp - 1)
        || (splitIp < lastIp && splitIp + 1 <= a <= lastIp) by {
      forall a ensures Covers(pools, a) <==>
          || (splitIp > firstIp && firstIp <= a <= splitIp - 1)
          || (splitIp < lastIp && splitIp + 1 <= a <= lastIp)
      {
        if splitIp > firstIp { assert pools[0] == Pool(firstIp, splitIp - 1); }
        if splitIp < lastIp { assert pools[|pools| - 1] == Pool(splitIp + 1, lastIp); }
      }
    }
    if gateway.Some? && gateway.value <= net.first && net.last > net.first + 1 {
      assert Covers(pools, net.first + 1) && !Wanted(net, gateway, net.first + 1);
    }
  }

  function Pow2(n: nat): (r: nat)
    ensures r >= 1
  {
    if n == 0 then 1 else 2 * Pow2(n - 1)
  }

  /** In figures: what a /24 gives away when nothing is specified. */
  lemma Slash24(address: nat, net: Net)
    requires net == NetOf(address, 32, 24)
    ensures net.last - net.first + 1 == 256 && net.first == address - address % 256 && Pow2(32 - 24) - 4 == 252
  {
    assert Pow2(4) == 16 && Pow2(6) == 64 && Pow2(8) == 256;
  }

  /** The largest multiple of `size` not above `a`: the host bits cleared. */
  function FloorTo(a: nat, size: nat): (r: nat)
    requires size > 0
    ensures r <= a < r + size && r == a - a % size
  {
    assert a == size * (a / size) + a % size;
    size * (a / size)
  }

  /** The addresses of `address`/`prefix`, both ends included. */
  function NetOf(address: nat, width: nat, prefix: nat): (net: Net)
    requires prefix <= width
    ensures net.first <= address <= net.last && net.last - net.first + 1 == Pow2(width - prefix)
    ensures net.first == address - address % Pow2(width - prefix)
  {
    var first := FloorTo(address, Pow2(width - prefix));
    Net(first, first + Pow2(width - prefix) - 1)
  }

  datatype Gateway = NotSpecified | Disabled | Address(ip: int)

  function ToOption(g: Gateway): Option<int> {
    if g.Address? then Some(g.ip) else None
  }

  /** The request dictionary create_subnet completes before it is stored. */
  class SubnetRequest {
    const address: nat
    const width: nat
    const prefix: nat
    var gateway: Gateway
    var pools: Option<seq<Pool>>

    constructor (address: nat, width: nat, prefix: nat, gateway: Gateway, pools: Option<seq<Pool>>)
      requires prefix <= width
      ensures this.address == address && this.width == width && this.prefix == prefix
      ensures this.gateway == gateway && this.pools == pools
    {
      this.address, this.width, this.prefix := address, width, prefix;
      this.gateway, this.pools := gateway, pools;
    }

    /**
     * Fills in the last host as gateway and the pools, each only when the caller gave none. It raises
     * (false) when the default gateway would be the address below 0.
     */
    method FillIn() returns (ok: bool)
      requires prefix <= width
      modifies this
      ensures var net := NetOf(address, width, prefix);
              && (ok <==> !(old(gateway).NotSpecified? && net.last == 0))
              && (!ok ==> gateway == old(gateway) && pools == old(pools))
              && (ok ==> gateway == if old(gateway).NotSpecified? then Address(net.last - 1) else old(gateway))
              && (ok && old(pools).Some? ==> pools == old(pools))
              && (ok && old(pools).None? ==>
                    && pools.Some? && WellFormed(pools.value)
                    && (Exact(pools.value, net, ToOption(gateway)) <==>
                        !gateway.Address? || gateway.ip > net.first || net.last <= net.first + 1))
      ensures ok && old(pools).None? && old(gateway).NotSpecified? ==>
                && Exact(pools.value, NetOf(address, width, prefix), ToOption(gateway))
                && Size(pools.value) == Max(0, Pow2(width - prefix) - 4)
    {
      var net := NetOf(address, width, prefix);
      if gateway.NotSpecified? {
        if net.last - 1 < 0 {
          return false;
        }
        gateway := Address(net.last - 1);
      }
      if pools.None? {
        var generated := AllocatePools(net, ToOption(gateway));
        pools := Some(generated);
      }
      return true;
    }
  }
}
