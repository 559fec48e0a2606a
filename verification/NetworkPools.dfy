/** Tenant networks over the address pools: seeding, allocation with the safe pool first,
    creating and deleting networks in interleaved transactions. */
module NetworkPools {
  import opened Text
  import opened AddressPools

  // ---------------------------------------------------------------- seeding

  datatype PoolName = Safe | Overflow

  /** A seeded /24: first.second.third.0/24 with gateway first.second.third.1. */
  datatype Subnet = Subnet(first: nat, second: nat, third: nat, pool: PoolName)

  function SafeSubnet(i: nat): Subnet { Subnet(172, 16 + i / 256, i % 256, Safe) }
  function OverflowSubnet(i: nat): Subnet { Subnet(10, i / 256, i % 256, Overflow) }

  const SAFE_COUNT := 4096
  const OVERFLOW_COUNT := 65536

  /** The network address as a number; the /24 covers this address and the next 255. */
  function Address(s: Subnet): nat {
    ((s.first * 256 + s.second) * 256 + s.third) * 256
  }

  function Gateway(s: Subnet): nat {
    Address(s) + 1
  }

  /** The row numbers of the seeded table, in insertion order. */
  function Seeded(row: nat): Subnet
    requires row < SAFE_COUNT + OVERFLOW_COUNT
  {
    if row < SAFE_COUNT then SafeSubnet(row) else OverflowSubnet(row - SAFE_COUNT)
  }

  method SeedGlobalIpPool() returns (rows: seq<Subnet>)
    ensures |rows| == SAFE_COUNT + OVERFLOW_COUNT
    ensures forall i :: 0 <= i < |rows| ==> rows[i] == Seeded(i)
  {
    rows := [];
    for i := 0 to SAFE_COUNT
      invariant |rows| == i && forall j :: 0 <= j < i ==> rows[j] == Seeded(j)
    {
      rows := rows + [Subnet(172, 16 + i / 256, i % 256, Safe)];
    }
    for i := 0 to OVERFLOW_COUNT
      invariant |rows| == SAFE_COUNT + i && forall j :: 0 <= j < |rows| ==> rows[j] == Seeded(j)
    {
      rows := rows + [Subnet(10, i / 256, i % 256, Overflow)];
    }
  }

  lemma DivMod256(i: nat)
    ensures i == 256 * (i / 256) + i % 256 && 0 <= i % 256 < 256
  {
  }

  lemma SeededAddress(row: nat)
    requires row < SAFE_COUNT + OVERFLOW_COUNT
    ensures Address(Seeded(row)) == if row < SAFE_COUNT then 172 * 16777216 + 16 * 65536 + 256 * row
                                    else 10 * 16777216 + 256 * (row - SAFE_COUNT)
  {
    DivMod256(if row < SAFE_COUNT then row else row - SAFE_COUNT);
  }

  /** Different seeded rows are disjoint /24s with octets in range; safe rows fill 172.16.0.0/12
      and overflow rows 10.0.0.0/8, and a gateway lies inside its own subnet. */
  lemma SeededSubnetsAreDisjoint(a: nat, b: nat)
    requires a < SAFE_COUNT + OVERFLOW_COUNT && b < SAFE_COUNT + OVERFLOW_COUNT && a != b
    ensures Address(Seeded(a)) + 256 <= Address(Seeded(b)) || Address(Seeded(b)) + 256 <= Address(Seeded(a))
    ensures Seeded(a).second < 256 && Seeded(a).third < 256
    ensures Seeded(a).pool.Safe? ==> 16 <= Seeded(a).second < 32
    ensures Gateway(Seeded(a)) - Address(Seeded(a)) == 1
  {
    SeededAddress(a);
    SeededAddress(b);
    DivMod256(a);
  }

  /** The WireGuard pool, 10.200.0.0/14 cut into 1024 subnets of 256 addresses. */
  method SeedWireguardPool() returns (addresses: seq<nat>)
    ensures |addresses| == 1024
    ensures forall i :: 0 <= i < |addresses| ==> addresses[i] == WireguardAddress(i)
  {
    var base := (10 * 256 + 200) * 65536;
    var end := base + 4 * 65536;
    addresses := [];
    var next := base;
    while next < end
      invariant |addresses| <= 1024 && next == base + 256 * |addresses|
      invariant forall i :: 0 <= i < |addresses| ==> addresses[i] == WireguardAddress(i)
    {
      addresses := addresses + [next];
      next := next + 256;
    }
  }

  function WireguardAddress(i: nat): nat {
    (10 * 256 + 200) * 65536 + 256 * i
  }

  ghost predicate IsWireguardAddress(address: nat) {
    exists i :: 0 <= i < 1024 && WireguardAddress(i) == address
  }

  /** The WireGuard pool and the tenant pool are not disjoint: a seeded tenant subnet is also a
      tunnel subnet exactly when it is one of 1024 overflow rows. */
  lemma WireguardOverlapsTenants(row: nat)
    requires row < SAFE_COUNT + OVERFLOW_COUNT
    ensures IsWireguardAddress(Address(Seeded(row))) <==> SAFE_COUNT + 51200 <= row < SAFE_COUNT + 52224
  {
    SeededAddress(row);
    if SAFE_COUNT + 51200 <= row < SAFE_COUNT + 52224 {
      assert WireguardAddress(row - SAFE_COUNT - 51200) == Address(Seeded(row));
    }
  }

  /** VLAN ids 10 to 4094 of one pod. */
  method SeedVlanPool() returns (ids: seq<nat>)
    ensures |ids| == 4085 && forall i :: 0 <= i < |ids| ==> ids[i] == 10 + i
  {
    ids := [];
    for v := 10 to 4095
      invariant |ids| == v - 10 && forall i :: 0 <= i < |ids| ==> ids[i] == 10 + i
    {
      ids := ids + [v];
    }
  }

  // ---------------------------------------------------------------- allocation

  type PodId = nat
  type VlanKey = (PodId, nat)

  /** The row numbers of one pool. */
  function RowsOf(rows: set<nat>, pool: PoolName): set<nat> {
    set r | r in rows && r < SAFE_COUNT + OVERFLOW_COUNT && Seeded(r).pool == pool
  }

  ghost predicate SubnetRows(rows: set<nat>) {
    forall r :: r in rows ==> r < SAFE_COUNT + OVERFLOW_COUNT
  }

  /** A safe row is handed out when there is one; an overflow row only when every safe row is
      in use or locked by another transaction; failure only when no row at all is left. */
  method AllocateSubnet(pool: Pool<nat>, t: TxId) returns (taken: Option<nat>)
    requires PoolOk(pool.State()) && t !in pool.held && SubnetRows(pool.rows.Keys)
    modifies pool
    ensures PoolOk(pool.State())
    ensures taken.Some? ==> Takes(old(pool.State()), t, taken.value, pool.State())
    ensures taken.Some? && Seeded(taken.value).pool.Overflow? ==>
              forall r :: r in old(pool.rows) && Seeded(r).pool.Safe? ==> old(pool.rows)[r] != FREE
    ensures taken.None? ==> pool.State() == old(pool.State()) && forall r :: r in pool.rows ==> pool.rows[r] != FREE
  {
    var names := [Safe, Overflow];
    taken := None;
    var i := 0;
    while i < 2 && taken.None?
      invariant 0 <= i <= 2
      invariant taken.None? ==> pool.State() == old(pool.State())
      invariant PoolOk(pool.State())
      invariant taken.Some? ==> i > 0 && Takes(old(pool.State()), t, taken.value, pool.State())
      invariant taken.Some? && Seeded(taken.value).pool.Overflow? ==>
                  forall r :: r in old(pool.rows) && Seeded(r).pool.Safe? ==> old(pool.rows)[r] != FREE
      invariant taken.None? && i > 0 ==> forall r :: r in old(pool.rows) && Seeded(r).pool.Safe? ==>
          old(pool.rows)[r] != FREE
      invariant taken.None? && i > 1 ==> forall r :: r in old(pool.rows) ==> old(pool.rows)[r] != FREE
      decreases 2 - i
    {
      var wanted := RowsOf(pool.rows.Keys, names[i]);
      taken := pool.Take(t, wanted);
      if taken.None? {
        NoCandidates(pool.rows, wanted);
      }
      i := i + 1;
    }
  }

  lemma NoCandidates<K(!new)>(rows: map<K, Row>, wanted: set<K>)
    requires Candidates(rows, wanted) == {}
    ensures forall k :: k in rows && k in wanted ==> rows[k] != FREE
  {
    forall k | k in rows && k in wanted
      ensures rows[k] != FREE
    {
      assert k !in Candidates(rows, wanted);
    }
  }

  /** The free VLAN ids of one pod. */
  method AllocateVlan(pool: Pool<VlanKey>, t: TxId, pod: PodId) returns (taken: Option<VlanKey>)
    requires PoolOk(pool.State()) && t !in pool.held
    modifies pool
    ensures PoolOk(pool.State())
    ensures taken.Some? ==> taken.value.0 == pod && Takes(old(pool.State()), t, taken.value, pool.State())
    ensures taken.None? ==> pool.State() == old(pool.State())
                            && forall k :: k in pool.rows && k.0 == pod ==> pool.rows[k] != FREE
  {
    var wanted := set k | k in pool.rows && k.0 == pod;
    taken := pool.Take(t, wanted);
    if taken.None? {
      NoCandidates(pool.rows, wanted);
    }
  }
}
