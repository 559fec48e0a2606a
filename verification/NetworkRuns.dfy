/** Tenant networks over the pools: the create and delete handlers, and every interleaving of
    their transactions. */
module NetworkRuns {
  import opened Text
  import opened AddressPools
  import opened NetworkPools

  type TenantId = nat

  datatype Network = Network(tenant: TenantId, pod: PodId, subnet: nat, vlan: Option<nat>, isDefault: bool,
                             deleted: bool)

  type Networks = map<OwnerId, Network>

  predicate Live(networks: Networks, id: OwnerId) {
    id in networks && !networks[id].deleted
  }

  datatype World = World(subnets: PoolState<nat>, vlans: PoolState<VlanKey>, networks: Networks)

  // ---------------------------------------------------------------- the invariant

  /** The subnet rows in use are exactly those of the live networks. */
  ghost predicate SubnetsLinked(used: map<OwnerId, nat>, networks: Networks) {
    forall id :: (id in used <==> Live(networks, id)) && (id in used ==> used[id] == networks[id].subnet)
  }

  /** The VLAN rows in use are exactly those of the live tagged networks, in their own pod. */
  ghost predicate VlansLinked(used: map<OwnerId, VlanKey>, networks: Networks) {
    forall id ::
      && (id in used <==> Live(networks, id) && networks[id].vlan.Some?)
      && (id in used ==> used[id] == (networks[id].pod, networks[id].vlan.value))
  }

  ghost predicate Inv(w: World) {
    && PoolOk(w.subnets) && SubnetRows(w.subnets.rows.Keys) && SubnetsLinked(w.subnets.used, w.networks)
    && PoolOk(w.vlans) && VlansLinked(w.vlans.used, w.networks)
  }

  /** The addresses of live networks never overlap, and no VLAN id is used twice in a pod. */
  lemma LiveNetworksAreDisjoint(w: World, a: OwnerId, b: OwnerId)
    requires Inv(w) && Live(w.networks, a) && Live(w.networks, b) && a != b
    ensures var m, n := w.networks[a], w.networks[b];
            && m.subnet != n.subnet
            && m.subnet < SAFE_COUNT + OVERFLOW_COUNT && n.subnet < SAFE_COUNT + OVERFLOW_COUNT
            && (Address(Seeded(m.subnet)) + 256 <= Address(Seeded(n.subnet))
                || Address(Seeded(n.subnet)) + 256 <= Address(Seeded(m.subnet)))
            && (m.pod == n.pod && m.vlan.Some? ==> m.vlan != n.vlan)
  {
    var m, n := w.networks[a], w.networks[b];
    assert w.subnets.used[a] == m.subnet && w.subnets.used[b] == n.subnet;
    SeededSubnetsAreDisjoint(m.subnet, n.subnet);
    if m.vlan.Some? && n.vlan.Some? {
      assert w.vlans.used[a] == (m.pod, m.vlan.value) && w.vlans.used[b] == (n.pod, n.vlan.value);
    }
  }

  // ---------------------------------------------------------------- steps

  /** `MissSafe` is the first query of `allocate_subnet` when it finds nothing; `TakeSubnet` is the
      query that finds a row. */
  datatype Event =
    | MissSafe(t: TxId)
    | TakeSubnet(t: TxId, row: nat)
    | TakeVlan(t: TxId, key: VlanKey)
    | Commit(t: TxId, id: OwnerId, network: Network)
    | Rollback(t: TxId)
    | Delete(id: OwnerId)

  /** The network row a transaction commits records the rows it holds: the subnet, and the VLAN
      id of its pod when it holds one. */
  ghost predicate Records(w: World, t: TxId, network: Network) {
    && !network.deleted
    && t in w.subnets.held && network.subnet == w.subnets.held[t]
    && (t in w.vlans.held <==> network.vlan.Some?)
    && (t in w.vlans.held ==> w.vlans.held[t] == (network.pod, network.vlan.value))
  }

  /** The handler's deletion: the default network is refused; nothing looks at the status. */
  ghost predicate Deletes(w: World, id: OwnerId, w': World) {
    && id in w.networks
    && var n := w.networks[id];
       if n.isDefault then w' == w
       else
         && Releases(w.subnets, id, n.subnet, w'.subnets)
         && (if n.vlan.Some? then Releases(w.vlans, id, (n.pod, n.vlan.value), w'.vlans) else w'.vlans == w.vlans)
         && w'.networks == w.networks[id := n.(deleted := true)]
  }

  /** Every safe row is in use or locked. */
  ghost predicate NoSafeRow(rows: map<nat, Row>) {
    forall r :: r in rows && r < SAFE_COUNT ==> rows[r] != FREE
  }

  ghost predicate Next(w: World, e: Event, w': World) {
    match e
    case MissSafe(t) =>
      NoSafeRow(w.subnets.rows) && w' == w
    case TakeSubnet(t, row) =>
      Takes(w.subnets, t, row, w'.subnets) && w'.vlans == w.vlans && w'.networks == w.networks
    case TakeVlan(t, key) =>
      Takes(w.vlans, t, key, w'.vlans) && w'.subnets == w.subnets && w'.networks == w.networks
    case Commit(t, id, network) =>
      && id !in w.networks && Records(w, t, network)
      && Commits(w.subnets, t, id, w'.subnets) && Commits(w.vlans, t, id, w'.vlans)
      && w'.networks == w.networks[id := network]
    case Rollback(t) =>
      Aborts(w.subnets, t, w'.subnets) && Aborts(w.vlans, t, w'.vlans) && w'.networks == w.networks
    case Delete(id) =>
      Deletes(w, id, w')
  }

  lemma CommitKeepsInv(w: World, t: TxId, id: OwnerId, network: Network, w': World)
    requires Inv(w) && Next(w, Commit(t, id, network), w')
    ensures Inv(w')
  {
    CommitsKeepsPool(w.subnets, t, id, w'.subnets);
    CommitsKeepsPool(w.vlans, t, id, w'.vlans);
    assert w'.subnets.rows.Keys == w.subnets.rows.Keys;
  }

  lemma PoolStepKeepsInv(w: World, e: Event, w': World)
    requires Inv(w) && Next(w, e, w') && (e.MissSafe? || e.TakeSubnet? || e.TakeVlan? || e.Rollback?)
    ensures Inv(w')
  {
    match e
    case MissSafe(t) =>
    case TakeSubnet(t, row) => TakesKeepsPool(w.subnets, t, row, w'.subnets);
    case TakeVlan(t, key) => TakesKeepsPool(w.vlans, t, key, w'.vlans);
    case Rollback(t) => AbortsKeepsPool(w.subnets, t, w'.subnets); AbortsKeepsPool(w.vlans, t, w'.vlans);
  }

  /** Nobody but `id` uses the row. */
  ghost predicate UnusedByOthers<K>(used: map<OwnerId, K>, id: OwnerId, k: K) {
    forall other :: other in used && other != id ==> used[other] != k
  }

  /** Deleting keeps the invariant if and only if no other live network has been given one of
      the rows since: always so for a live network, and not in general for a deleted one. */
  lemma DeleteKeepsInv(w: World, id: OwnerId, w': World)
    requires Inv(w) && Deletes(w, id, w') && !w.networks[id].isDefault
    ensures var n := w.networks[id];
            Inv(w') <==> UnusedByOthers(w.subnets.used, id, n.subnet)
                         && (n.vlan.Some? ==> UnusedByOthers(w.vlans.used, id, (n.pod, n.vlan.value)))
  {
    var n := w.networks[id];
    ReleasesKeepsPool(w.subnets, id, n.subnet, w'.subnets);
    if n.vlan.Some? {
      ReleasesKeepsPool(w.vlans, id, (n.pod, n.vlan.value), w'.vlans);
    }
    assert w'.subnets.used == w.subnets.used - {id};
    assert SubnetsLinked(w'.subnets.used, w'.networks);
    assert VlansLinked(w'.vlans.used, w'.networks);
    assert w'.subnets.rows.Keys == w.subnets.rows.Keys;
  }

  lemma DeleteLiveKeepsInv(w: World, id: OwnerId, w': World)
    requires Inv(w) && Deletes(w, id, w') && Live(w.networks, id)
    ensures Inv(w')
  {
    if !w.networks[id].isDefault {
      assert w.subnets.used[id] == w.networks[id].subnet;
      if w.networks[id].vlan.Some? {
        assert w.vlans.used[id] == (w.networks[id].pod, w.networks[id].vlan.value);
      }
      DeleteKeepsInv(w, id, w');
    }
  }

  // ---------------------------------------------------------------- runs

  /** The code queries the safe pool first: an overflow row is taken by a transaction whose first
      query has found nothing. */
  ghost predicate SafeFirst(events: seq<Event>) {
    forall i :: 0 <= i < |events| && events[i].TakeSubnet? && events[i].row >= SAFE_COUNT ==>
      exists j :: 0 <= j < i && events[j] == MissSafe(events[i].t)
  }

  /** A run that deletes no network twice, in any interleaving of the statements. */
  ghost predicate Run(worlds: seq<World>, events: seq<Event>) {
    && |worlds| == |events| + 1 && SafeFirst(events)
    && forall i :: 0 <= i < |events| ==>
         && Next(worlds[i], events[i], worlds[i + 1])
         && (events[i].Delete? ==> Live(worlds[i].networks, events[i].id))
  }

  /** In every run live networks keep disjoint addresses and distinct VLAN ids, and no row is
      in the hands of two open transactions. */
  lemma {:induction false} EveryRunIsSafe(worlds: seq<World>, events: seq<Event>)
    requires Run(worlds, events) && Inv(worlds[0])
    ensures forall i :: 0 <= i < |worlds| ==> Inv(worlds[i])
  {
    for i := 0 to |events|
      invariant forall j :: 0 <= j <= i ==> Inv(worlds[j])
    {
      assert Next(worlds[i], events[i], worlds[i + 1]);
      match events[i]
      case Commit(t, id, network) => CommitKeepsInv(worlds[i], t, id, network, worlds[i + 1]);
      case Delete(id) => DeleteLiveKeepsInv(worlds[i], id, worlds[i + 1]);
      case _ => PoolStepKeepsInv(worlds[i], events[i], worlds[i + 1]);
    }
  }

  // ---------------------------------------------------------------- default networks

  function LiveDefaults(networks: Networks, t: TenantId): set<OwnerId> {
    set id | id in networks && networks[id].tenant == t && networks[id].isDefault && !networks[id].deleted
  }

  function NewDefault(e: Event, t: TenantId): set<OwnerId> {
    if e.Commit? && e.network.tenant == t && e.network.isDefault then {e.id} else {}
  }

  /** No step ends a default network: the deletion refuses it. */
  lemma DefaultsOnlyGrow(w: World, e: Event, w': World, t: TenantId)
    requires Next(w, e, w')
    ensures LiveDefaults(w'.networks, t) == LiveDefaults(w.networks, t) + NewDefault(e, t)
    ensures LiveDefaults(w.networks, t) !! NewDefault(e, t)
    ensures forall id :: id in LiveDefaults(w.networks, t) ==> w'.networks[id] == w.networks[id]
  {
  }

  // ---------------------------------------------------------------- safe rows first

  /** The step makes the subnet row free: its holder rolls back, or its network is deleted. */
  ghost predicate Frees(w: World, e: Event, row: nat) {
    || (e.Rollback? && e.t in w.subnets.held && w.subnets.held[e.t] == row)
    || (e.Delete? && e.id in w.networks && !w.networks[e.id].isDefault && w.networks[e.id].subnet == row)
  }

  lemma OnlyThoseFree(w: World, e: Event, w': World, row: nat)
    requires Next(w, e, w') && row in w.subnets.rows && w.subnets.rows[row] != FREE
    ensures row in w'.subnets.rows && (w'.subnets.rows[row] == FREE <==> Frees(w, e, row))
  {
  }

  ghost predicate FreedIn(worlds: seq<World>, events: seq<Event>, row: nat, from: nat, to: nat)
    requires |worlds| == |events| + 1 && from <= to <= |events|
  {
    exists m :: from <= m < to && Frees(worlds[m], events[m], row)
  }

  lemma {:induction false} FreedBetween(worlds: seq<World>, events: seq<Event>, row: nat, from: nat, to: nat)
    requires Run(worlds, events) && from <= to <= |events|
    requires row in worlds[from].subnets.rows && worlds[from].subnets.rows[row] != FREE
    ensures row in worlds[to].subnets.rows
    ensures worlds[to].subnets.rows[row] == FREE ==> FreedIn(worlds, events, row, from, to)
  {
    hide Next, Frees;
    var i := from;
    while i < to
      invariant from <= i <= to && row in worlds[i].subnets.rows
      invariant worlds[i].subnets.rows[row] == FREE ==> FreedIn(worlds, events, row, from, i)
    {
      RowStays(worlds[i], events[i], worlds[i + 1], row);
      if worlds[i].subnets.rows[row] != FREE {
        OnlyThoseFree(worlds[i], events[i], worlds[i + 1], row);
      }
      i := i + 1;
    }
  }

  lemma RowStays(w: World, e: Event, w': World, row: nat)
    requires Next(w, e, w') && row in w.subnets.rows
    ensures row in w'.subnets.rows
  {
  }

  /** When an overflow row is taken, every safe row was in use or locked at the transaction's
      first query; a safe row that is free by now has been freed in between. */
  lemma OverflowIsLastResort(worlds: seq<World>, events: seq<Event>, i: nat) returns (j: nat)
    requires Run(worlds, events) && i < |events| && events[i].TakeSubnet? && events[i].row >= SAFE_COUNT
    ensures j < i && events[j] == MissSafe(events[i].t) && NoSafeRow(worlds[j].subnets.rows)
    ensures forall r :: r in worlds[j].subnets.rows && r < SAFE_COUNT ==>
              && r in worlds[i].subnets.rows
              && (worlds[i].subnets.rows[r] == FREE ==> FreedIn(worlds, events, r, j, i))
  {
    j :| 0 <= j < i && events[j] == MissSafe(events[i].t);
    assert Next(worlds[j], events[j], worlds[j + 1]);
    forall r | r in worlds[j].subnets.rows && r < SAFE_COUNT
      ensures r in worlds[i].subnets.rows
      ensures worlds[i].subnets.rows[r] == FREE ==> FreedIn(worlds, events, r, j, i)
    {
      FreedBetween(worlds, events, r, j, i);
    }
  }

  // ---------------------------------------------------------------- a network deleted twice

  function Fresh(row: nat): World {
    World(PoolState(map[row := FREE], map[], map[]), PoolState(map[], map[], map[]), map[])
  }

  function Plain(row: nat, deleted: bool): Network {
    Network(1, 1, row, None, false, deleted)
  }

  /** One subnet row after network 1 took and returned it and network 2 took it again. */
  function Reused(row: nat): World {
    World(PoolState(map[row := Row(true, None)], map[], map[2 := row]), PoolState(map[], map[], map[]),
          map[1 := Plain(row, true), 2 := Plain(row, false)])
  }

  function Held(row: nat, t: TxId, networks: Networks): World {
    World(PoolState(map[row := Row(false, Some(t))], map[t := row], map[]), PoolState(map[], map[], map[]), networks)
  }

  function Used(row: nat): World {
    World(PoolState(map[row := Row(true, None)], map[], map[1 := row]), PoolState(map[], map[], map[]),
          map[1 := Plain(row, false)])
  }

  function Freed(row: nat): World {
    Fresh(row).(networks := map[1 := Plain(row, true)])
  }

  lemma FirstUse(row: nat)
    ensures Next(Fresh(row), TakeSubnet(7, row), Held(row, 7, map[]))
    ensures Next(Held(row, 7, map[]), Commit(7, 1, Plain(row, false)), Used(row))
    ensures Next(Used(row), Delete(1), Freed(row)) && Live(Used(row).networks, 1)
  {
    assert map[row := FREE][row := Row(false, Some(7))] == map[row := Row(false, Some(7))];
    assert map[7 := row] - {7} == map[] && map[1 := row] - {1} == map[];
    assert map[row := Row(false, Some(7))][row := Row(true, None)] == map[row := Row(true, None)];
    assert map[row := Row(true, None)][row := FREE] == map[row := FREE];
    assert map[1 := Plain(row, false)][1 := Plain(row, true)] == map[1 := Plain(row, true)];
  }

  lemma SecondUse(row: nat)
    ensures Next(Freed(row), TakeSubnet(8, row), Held(row, 8, map[1 := Plain(row, true)]))
    ensures Next(Held(row, 8, map[1 := Plain(row, true)]), Commit(8, 2, Plain(row, false)), Reused(row))
  {
    assert map[row := FREE][row := Row(false, Some(8))] == map[row := Row(false, Some(8))];
    assert map[8 := row] - {8} == map[];
    assert map[row := Row(false, Some(8))][row := Row(true, None)] == map[row := Row(true, None)];
  }

  /** A run that deletes nothing twice leads from a fresh pool to that state. */
  lemma ReusedIsReachable(row: nat) returns (worlds: seq<World>, events: seq<Event>)
    requires row < SAFE_COUNT
    ensures Inv(Fresh(row)) && Run(worlds, events)
    ensures worlds[0] == Fresh(row) && worlds[|worlds| - 1] == Reused(row)
  {
    hide Next;
    worlds := [Fresh(row), Held(row, 7, map[]), Used(row), Freed(row), Held(row, 8, map[1 := Plain(row, true)]),
               Reused(row)];
    events := [TakeSubnet(7, row), Commit(7, 1, Plain(row, false)), Delete(1), TakeSubnet(8, row),
               Commit(8, 2, Plain(row, false))];
    FirstUse(row);
    SecondUse(row);
    FreshIsConsistent(row);
  }

  lemma FreshIsConsistent(row: nat)
    requires row < SAFE_COUNT + OVERFLOW_COUNT
    ensures Inv(Fresh(row))
  {
    assert PoolOk(Fresh(row).subnets) && PoolOk(Fresh(row).vlans);
  }

  function Shared(row: nat): World {
    World(PoolState(map[row := Row(true, None)], map[], map[2 := row, 3 := row]), PoolState(map[], map[], map[]),
          map[1 := Plain(row, true), 2 := Plain(row, false), 3 := Plain(row, false)])
  }

  /** Deleting network 1 a second time frees the row under live network 2; the next network is
      given the same /24. */
  lemma SecondDeleteSharesSubnet(row: nat) returns (freed: World, taken: World)
    requires row < SAFE_COUNT + OVERFLOW_COUNT
    ensures Inv(Reused(row)) && Next(Reused(row), Delete(1), freed) && !Inv(freed)
    ensures Next(freed, TakeSubnet(9, row), taken) && Next(taken, Commit(9, 3, Plain(row, false)), Shared(row))
    ensures Live(Shared(row).networks, 2) && Live(Shared(row).networks, 3)
            && Shared(row).networks[2].subnet == Shared(row).networks[3].subnet
  {
    var w := Reused(row);
    freed := World(PoolState(map[row := FREE], map[], map[2 := row]), w.vlans, w.networks);
    taken := World(PoolState(map[row := Row(false, Some(9))], map[9 := row], map[2 := row]), w.vlans, w.networks);
    ReusedIsConsistent(row);
    FreedIsNot(row, freed);
    TakenAgain(row, freed, taken);
  }

  lemma ReusedIsConsistent(row: nat)
    requires row < SAFE_COUNT + OVERFLOW_COUNT
    ensures Inv(Reused(row))
  {
    var w := Reused(row);
    assert PoolOk(w.subnets) && PoolOk(w.vlans);
    assert SubnetsLinked(w.subnets.used, w.networks);
    assert VlansLinked(w.vlans.used, w.networks);
  }

  lemma FreedIsNot(row: nat, freed: World)
    requires freed == World(PoolState(map[row := FREE], map[], map[2 := row]), Reused(row).vlans, Reused(row).networks)
    ensures Next(Reused(row), Delete(1), freed) && !Inv(freed)
  {
    var w := Reused(row);
    assert w.networks[1 := Plain(row, true)] == w.networks;
    assert w.subnets.used - {1} == w.subnets.used;
    assert map[row := Row(true, None)][row := FREE] == map[row := FREE];
    assert Releases(w.subnets, 1, row, freed.subnets);
    assert freed.subnets.used[2] == row && freed.subnets.rows[row] == FREE;
    assert !UsedOk(freed.subnets);
  }

  lemma TakenAgain(row: nat, freed: World, taken: World)
    requires freed == World(PoolState(map[row := FREE], map[], map[2 := row]), Reused(row).vlans, Reused(row).networks)
    requires taken == World(PoolState(map[row := Row(false, Some(9))], map[9 := row], map[2 := row]),
                            freed.vlans, freed.networks)
    ensures Next(freed, TakeSubnet(9, row), taken) && Next(taken, Commit(9, 3, Plain(row, false)), Shared(row))
  {
    assert map[row := FREE][row := Row(false, Some(9))] == taken.subnets.rows;
    assert Takes(freed.subnets, 9, row, taken.subnets);
    assert taken.subnets.held - {9} == map[];
    assert taken.subnets.rows[row := Row(true, None)] == Shared(row).subnets.rows;
    assert taken.subnets.used[3 := row] == Shared(row).subnets.used;
    assert Commits(taken.subnets, 9, 3, Shared(row).subnets);
    assert taken.networks[3 := Plain(row, false)] == Shared(row).networks;
  }

  // ---------------------------------------------------------------- a safe row freed between the queries

  function Busy(o: nat): World {
    World(PoolState(map[0 := Row(true, None), o := FREE], map[], map[1 := 0]), PoolState(map[], map[], map[]),
          map[1 := Plain(0, false)])
  }

  /** Between the two queries of transaction 9 the only safe row is freed: it is handed an
      overflow row while the safe one is free. */
  lemma SafeRowMissed(o: nat) returns (worlds: seq<World>, events: seq<Event>)
    requires SAFE_COUNT <= o < SAFE_COUNT + OVERFLOW_COUNT
    ensures Run(worlds, events) && |events| == 3 && Inv(worlds[0])
    ensures events[2] == TakeSubnet(9, o) && 0 in worlds[2].subnets.rows && worlds[2].subnets.rows[0] == FREE
  {
    var w := Busy(o);
    var freed := World(PoolState(map[0 := FREE, o := FREE], map[], map[]), w.vlans, map[1 := Plain(0, true)]);
    var taken := World(PoolState(map[0 := FREE, o := Row(false, Some(9))], map[9 := o], map[]), w.vlans,
                       freed.networks);
    BusyIsConsistent(o);
    BusySteps(o, freed, taken);
    worlds, events := [w, w, freed, taken], [MissSafe(9), Delete(1), TakeSubnet(9, o)];
    assert events[0] == MissSafe(events[2].t);
    hide Next, Inv;
  }

  lemma BusyIsConsistent(o: nat)
    requires SAFE_COUNT <= o < SAFE_COUNT + OVERFLOW_COUNT
    ensures Inv(Busy(o))
  {
    var w := Busy(o);
    assert PoolOk(w.subnets) && PoolOk(w.vlans);
    assert SubnetsLinked(w.subnets.used, w.networks) && VlansLinked(w.vlans.used, w.networks);
  }

  lemma BusySteps(o: nat, freed: World, taken: World)
    requires SAFE_COUNT <= o
    requires freed == World(PoolState(map[0 := FREE, o := FREE], map[], map[]), Busy(o).vlans, map[1 := Plain(0, true)])
    requires taken == World(PoolState(map[0 := FREE, o := Row(false, Some(9))], map[9 := o], map[]), Busy(o).vlans,
                            freed.networks)
    ensures Next(Busy(o), MissSafe(9), Busy(o)) && Next(Busy(o), Delete(1), freed) && Live(Busy(o).networks, 1)
    ensures Next(freed, TakeSubnet(9, o), taken)
  {
    var w := Busy(o);
    assert w.subnets.rows[0 := FREE] == freed.subnets.rows && w.subnets.used - {1} == map[];
    assert w.networks[1 := Plain(0, true)] == freed.networks;
    assert freed.subnets.rows[o := Row(false, Some(9))] == taken.subnets.rows;
  }

  // ---------------------------------------------------------------- the handlers

  datatype Created = Created(id: OwnerId) | NoPod | NoSubnet | NoVlan | NoDefaultNetwork
  datatype Deleted = Removed | NotFound | IsDefault

  ghost predicate SomeSubnetFree(rows: map<nat, Row>) {
    exists k :: k in rows && rows[k] == FREE
  }

  ghost predicate SomeVlanFree(rows: map<VlanKey, Row>, pod: PodId) {
    exists k :: k in rows && k.0 == pod && rows[k] == FREE
  }

  /** A tagged network on a subnet row and a VLAN row that were free and are now in use. */
  ghost predicate NetworkAdded(w: World, id: OwnerId, n: Network, w': World)
    requires n.vlan.Some?
  {
    var key := (n.pod, n.vlan.value);
    && id !in w.networks && w'.networks == w.networks[id := n]
    && n.subnet in w.subnets.rows && w.subnets.rows[n.subnet] == FREE
    && w'.subnets.rows == w.subnets.rows[n.subnet := Row(true, None)]
    && key in w.vlans.rows && w.vlans.rows[key] == FREE
    && w'.vlans.rows == w.vlans.rows[key := Row(true, None)]
  }

  lemma TakenThenCommitted(w: World, t: TxId, n: Network, w1: World, id: OwnerId, w2: World)
    requires n.vlan.Some? && Takes(w.subnets, t, n.subnet, w1.subnets)
    requires Takes(w.vlans, t, (n.pod, n.vlan.value), w1.vlans)
    requires w1.networks == w.networks && Next(w1, Commit(t, id, n), w2)
    ensures NetworkAdded(w, id, n, w2)
  {
    assert w2.subnets.rows == w1.subnets.rows[n.subnet := Row(true, None)];
    assert w2.vlans.rows == w1.vlans.rows[(n.pod, n.vlan.value) := Row(true, None)];
  }

  /** The world differs from `w` by the subnet row the transaction has taken, if any. */
  ghost predicate Holds(w: World, t: TxId, row: Option<nat>, w': World) {
    if row.None? then w' == w
    else Takes(w.subnets, t, row.value, w'.subnets) && w'.vlans == w.vlans && w'.networks == w.networks
  }

  class NetworkService {
    const subnets: Pool<nat>
    const vlans: Pool<VlanKey>
    var networks: Networks
    var nextId: OwnerId

    constructor (subnets: Pool<nat>, vlans: Pool<VlanKey>)
      ensures this.subnets == subnets && this.vlans == vlans && networks == map[] && nextId == 0
      ensures Inv(View()) ==> Valid()
    {
      this.subnets, this.vlans, networks, nextId := subnets, vlans, map[], 0;
    }

    ghost function View(): World
      reads this, subnets, vlans
    {
      World(subnets.State(), vlans.State(), networks)
    }

    ghost predicate Valid()
      reads this, subnets, vlans
    {
      Inv(View()) && forall id :: id in networks ==> id < nextId
    }

    predicate HasDefault(tenant: TenantId)
      reads this
    {
      exists id :: id in networks && networks[id].tenant == tenant && networks[id].isDefault
    }

    /** `create_network`, one transaction. Every failure rolls back and leaves the world as it
        was; it fails exactly when the tenant has no pod, a pool is exhausted for it, or it has
        no default network. */
    method CreateNetwork(t: TxId, tenant: TenantId, podId: Option<PodId>) returns (r: Created)
      requires Valid() && t !in subnets.held && t !in vlans.held
      modifies this, subnets, vlans
      ensures Valid()
      ensures !r.Created? ==> View() == old(View())
      ensures r.NoPod? <==> podId.None? || podId.value == 0
      ensures r.NoSubnet? <==> !r.NoPod? && !SomeSubnetFree(old(subnets.rows))
      ensures r.NoVlan? <==> !r.NoPod? && !r.NoSubnet?
                             && !SomeVlanFree(old(vlans.rows), podId.value)
      ensures r.NoDefaultNetwork? <==> !r.NoPod? && !r.NoSubnet? && !r.NoVlan? && !old(HasDefault(tenant))
      ensures r.NoDefaultNetwork? ==>
                forall id :: id in networks && networks[id].isDefault ==> networks[id].tenant != tenant
      ensures r.Created? ==>
                exists id :: id in old(networks) && old(networks)[id].tenant == tenant && old(networks)[id].isDefault
      ensures r.Created? ==>
                && r.id == old(nextId) && r.id in networks
                && var n := networks[r.id];
                   && n.tenant == tenant && n.pod == podId.value && n.vlan.Some? && !n.isDefault && !n.deleted
                   && NetworkAdded(old(View()), r.id, n, View())
    {
      if podId.None? || podId.value == 0 {
        return NoPod;
      }
      var subnet := AllocateSubnet(subnets, t);
      if subnet.None? {
        return NoSubnet;
      }
      ghost var s0, v0 := old(subnets.State()), vlans.State();
      var vlan := AllocateVlan(vlans, t, podId.value);
      if vlan.None? {
        RollbackSubnet(t, subnet.value, s0);
        return NoVlan;
      }
      if !HasDefault(tenant) {
        RollbackSubnet(t, subnet.value, s0);
        RollbackVlan(t, vlan.value, v0);
        return NoDefaultNetwork;
      }
      var n := Network(tenant, podId.value, subnet.value, Some(vlan.value.1), false, false);
      ghost var taken := View();
      TookBoth(old(View()), t, subnet.value, vlan.value, taken);
      r := Created(nextId);
      CommitNetwork(t, n);
      TakenThenCommitted(old(View()), t, n, taken, r.id, View());
    }

    method RollbackSubnet(t: TxId, row: nat, ghost s: PoolState<nat>)
      requires PoolOk(subnets.State()) && Takes(s, t, row, subnets.State())
      modifies subnets
      ensures PoolOk(subnets.State()) && subnets.State() == s
    {
      ghost var s1 := subnets.State();
      subnets.Rollback(t, Some(row));
      TakeThenRollback(s, t, row, s1, subnets.State());
    }

    method RollbackVlan(t: TxId, key: VlanKey, ghost v: PoolState<VlanKey>)
      requires PoolOk(vlans.State()) && Takes(v, t, key, vlans.State())
      modifies vlans
      ensures PoolOk(vlans.State()) && vlans.State() == v
    {
      ghost var v1 := vlans.State();
      vlans.Rollback(t, Some(key));
      TakeThenRollback(v, t, key, v1, vlans.State());
    }

    /** The inserted row and the commit of the pool rows it records. */
    method CommitNetwork(t: TxId, n: Network)
      requires Valid() && Records(View(), t, n)
      modifies this, subnets, vlans
      ensures Valid()
      ensures Next(old(View()), Commit(t, old(nextId), n), View())
      ensures nextId == old(nextId) + 1
    {
      subnets.Commit(t, nextId, Some(n.subnet));
      vlans.Commit(t, nextId, if n.vlan.Some? then Some((n.pod, n.vlan.value)) else None);
      networks := networks[nextId := n];
      CommitKeepsInv(old(View()), t, nextId, n, View());
      nextId := nextId + 1;
    }

    /** The allocation inside `approve_tenant`: a subnet, no VLAN id. */
    method BeginDefault(t: TxId) returns (row: Option<nat>)
      requires Valid() && t !in subnets.held && t !in vlans.held
      modifies subnets
      ensures Valid() && Holds(old(View()), t, row, View())
      ensures row.None? <==> !SomeSubnetFree(old(subnets.rows))
    {
      row := AllocateSubnet(subnets, t);
      if row.Some? {
        PoolStepKeepsInv(old(View()), TakeSubnet(t, row.value), View());
      }
    }

    method AbortDefault(t: TxId, row: Option<nat>, ghost w: World)
      requires Valid() && Holds(w, t, row, View())
      modifies subnets
      ensures Valid() && View() == w
    {
      if row.Some? {
        ghost var w1 := View();
        RollbackSubnet(t, row.value, w.subnets);
        assert w1.subnets.rows.Keys == w.subnets.rows.Keys;
      }
    }

    /** `delete_network`, one transaction: the status is not looked at. */
    method DeleteNetwork(tenant: TenantId, id: OwnerId) returns (r: Deleted)
      requires Valid()
      requires id in networks ==> networks[id].subnet in subnets.rows ==> subnets.rows[networks[id].subnet].lock.None?
      requires id in networks && networks[id].vlan.Some? ==>
                 var key := (networks[id].pod, networks[id].vlan.value);
                 key in vlans.rows ==> vlans.rows[key].lock.None?
      modifies this, subnets, vlans
      ensures r.NotFound? <==> id !in old(networks) || old(networks)[id].tenant != tenant
      ensures r.IsDefault? <==> !r.NotFound? && old(networks)[id].isDefault
      ensures !r.Removed? ==> View() == old(View())
      ensures r.Removed? ==> Deletes(old(View()), id, View()) && networks[id].deleted
      ensures old(Live(networks, id)) ==> Valid()
    {
      if id !in networks || networks[id].tenant != tenant {
        return NotFound;
      }
      var n := networks[id];
      if n.isDefault {
        return IsDefault;
      }
      subnets.Release(id, n.subnet);
      if n.vlan.Some? {
        vlans.Release(id, (n.pod, n.vlan.value));
      }
      networks := networks[id := n.(deleted := true)];
      if old(Live(networks, id)) {
        DeleteLiveKeepsInv(old(View()), id, View());
      }
      r := Removed;
    }
  }

  lemma TookBoth(w: World, t: TxId, row: nat, key: VlanKey, w': World)
    requires Inv(w) && Takes(w.subnets, t, row, w'.subnets) && Takes(w.vlans, t, key, w'.vlans)
    requires w'.networks == w.networks
    ensures Inv(w')
  {
    var mid := World(w'.subnets, w.vlans, w.networks);
    PoolStepKeepsInv(w, TakeSubnet(t, row), mid);
    PoolStepKeepsInv(mid, TakeVlan(t, key), w');
  }
}
