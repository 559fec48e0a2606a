/** Searches for the least number not in use: build VM ids, WireGuard listen ports and peer
    addresses. */
module LeastFree {
  import opened Sets
  import opened Text

  ghost predicate IsLeastFree(used: set<int>, start: int, v: int) {
    start <= v && v !in used && forall x :: start <= x < v ==> x in used
  }

  /** A stretch of numbers in use is no longer than the number of them. */
  lemma Pigeonhole(used: set<int>, start: int, v: int)
    requires start <= v && forall x :: start <= x < v ==> x in used
    ensures v <= start + |used|
  {
    SubsetSize(Range(start, v), used);
  }

  lemma LeastFreeIsUnique(used: set<int>, start: int, v: int, w: int)
    requires IsLeastFree(used, start, v) && IsLeastFree(used, start, w)
    ensures v == w
  {
  }

  /** The loop `while v in used: v += 1`, which always ends. */
  method Search(used: set<int>, start: int) returns (v: int)
    ensures IsLeastFree(used, start, v) && v <= start + |used|
  {
    v := start;
    while v in used
      invariant start <= v <= start + |used| && forall x :: start <= x < v ==> x in used
      decreases start + |used| - v
    {
      Pigeonhole(used, start, v + 1);
      v := v + 1;
    }
  }

  // ---------------------------------------------------------------- build VM ids

  const FIRST_BUILD_VMID := 9000

  /** The ids the builds and the hypervisor use; a hypervisor that cannot be asked counts for
      none, and entries without an id are skipped. */
  function UsedVmids(builds: seq<int>, listed: Option<seq<Option<int>>>): set<int> {
    (set v | v in builds) +
    if listed.None? then {} else set o | o in listed.value && o.Some? && o.value != 0 :: o.value
  }

  method AllocateBuildVmid(builds: seq<int>, listed: Option<seq<Option<int>>>) returns (v: int)
    ensures IsLeastFree(UsedVmids(builds, listed), FIRST_BUILD_VMID, v)
    ensures v <= FIRST_BUILD_VMID + |UsedVmids(builds, listed)|
    ensures v !in builds && (listed.Some? ==> Some(v) !in listed.value)
    ensures v >= 9000 && forall x :: 9000 <= x < v ==> x in builds || (listed.Some? && Some(x) in listed.value)
  {
    v := Search(UsedVmids(builds, listed), FIRST_BUILD_VMID);
    forall x | x >= FIRST_BUILD_VMID
      ensures x in UsedVmids(builds, listed) <==> x in builds || (listed.Some? && Some(x) in listed.value)
    {
      if listed.Some? && Some(x) in listed.value {
        assert Some(x).Some? && Some(x).value == x;
      }
    }
  }

  // ---------------------------------------------------------------- listen ports

  datatype TunnelStatus = Pending | Provisioning | Active | Failed | Destroying

  datatype Tunnel = Tunnel(port: Option<int>, status: TunnelStatus)

  const DEFAULT_LISTEN_PORT := 51820

  function UsedPorts(tunnels: seq<Tunnel>): set<int> {
    set t | t in tunnels && t.status in {Active, Provisioning} && t.port.Some? && t.port.value != 0 :: t.port.value
  }

  /** The tenant's new tunnel, pending: a requested port is taken as it is, otherwise the least
      one from the default that no active or provisioning tunnel uses. */
  method CreateTunnel(tunnels: seq<Tunnel>, requested: Option<int>) returns (t: Tunnel)
    ensures t.status == Pending && t.port.Some?
    ensures if requested.Some? && requested.value != 0 then t.port == requested
            else IsLeastFree(UsedPorts(tunnels), DEFAULT_LISTEN_PORT, t.port.value)
                 && t.port.value <= DEFAULT_LISTEN_PORT + |UsedPorts(tunnels)|
                 && t.port.value >= 51820
                 && (forall u :: u in tunnels && u.port == t.port ==> u.status !in {Active, Provisioning})
                 && forall x :: 51820 <= x < t.port.value ==>
                      exists u :: u in tunnels && u.port == Some(x) && u.status in {Active, Provisioning}
  {
    if requested.Some? && requested.value != 0 {
      return Tunnel(requested, Pending);
    }
    var v := Search(UsedPorts(tunnels), DEFAULT_LISTEN_PORT);
    forall x | x in UsedPorts(tunnels)
      ensures exists u :: u in tunnels && u.port == Some(x) && u.status in {Active, Provisioning}
    {
      var u :| u in tunnels && u.status in {Active, Provisioning} && u.port.Some? && u.port.value == x;
    }
    t := Tunnel(Some(v), Pending);
  }

  /** A pending tunnel does not count as using its port: until it is provisioned, the next
      tunnel gets the same one; afterwards it gets another. */
  lemma PendingTunnelSharesPort(tunnels: seq<Tunnel>, v: int, status: TunnelStatus, w: int)
    requires IsLeastFree(UsedPorts(tunnels), DEFAULT_LISTEN_PORT, v)
    requires IsLeastFree(UsedPorts(tunnels + [Tunnel(Some(v), status)]), DEFAULT_LISTEN_PORT, w)
    ensures w == v <==> status !in {Active, Provisioning}
  {
    var t := Tunnel(Some(v), status);
    var before, after := UsedPorts(tunnels), UsedPorts(tunnels + [t]);
    assert t in tunnels + [t];
    forall x
      ensures x in after <==> x in before || (x == v && status in {Active, Provisioning})
    {
      if x in before {
        var u :| u in tunnels && u.status in {Active, Provisioning} && u.port == Some(x) && x != 0;
        assert u in tunnels + [t];
      }
    }
    if status !in {Active, Provisioning} {
      assert after == before;
      LeastFreeIsUnique(before, DEFAULT_LISTEN_PORT, v, w);
    }
  }
}
