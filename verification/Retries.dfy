/** Approvals, network handlers and everything else that happens to tenants, as one run: what a
    tenant keeps from the attempts before. */
module Retries {
  import opened Text
  import opened ProvisioningTables
  import AddressPools
  import N = NetworkRuns
  import Provisioning

  datatype System = System(tables: Tables, world: N.World)

  /** `Approved` is the commit of an approval: the tables, and the default network on the subnet
      row that the transaction has taken before. */
  datatype Step =
    | OnTables(event: Event)
    | OnNetworks(change: N.Event)
    | Approved(t: TenantId, p: PodId, b: BridgeId, locked: set<PodId>, tx: nat, id: nat, row: nat)

  function Default(t: TenantId, p: PodId, row: nat): N.Network {
    N.Network(t, p, row, None, true, false)
  }

  /** The subnet taken and the approval committed: together the default network that
      `approve_tenant` adds. */
  lemma ApprovedAddsDefault(w: N.World, t: TenantId, p: PodId, tx: nat, id: nat, row: nat,
                            taken: N.World, w': N.World)
    requires N.Next(w, N.TakeSubnet(tx, row), taken) && N.Next(taken, N.Commit(tx, id, Default(t, p, row)), w')
    ensures Provisioning.DefaultAdded(w, t, p, id, w')
  {
    assert w'.subnets.rows == w.subnets.rows[row := AddressPools.Row(true, None)];
  }

  /** Only an approval commits a default network, and no network is deleted twice. */
  ghost predicate Does(s: System, e: Step, s': System) {
    match e
    case OnTables(event) => !event.Approve? && Next(s.tables, event, s'.tables) && s'.world == s.world
    case OnNetworks(change) =>
      && (change.Commit? ==> !change.network.isDefault)
      && (change.Delete? ==> N.Live(s.world.networks, change.id))
      && N.Next(s.world, change, s'.world) && s'.tables == s.tables
    case Approved(t, p, b, locked, tx, id, row) =>
      && Next(s.tables, Approve(t, p, b, locked), s'.tables)
      && N.Next(s.world, N.Commit(tx, id, Default(t, p, row)), s'.world)
  }

  /** Whenever the conditions of an approval are met and a subnet has been taken, it can commit. */
  lemma ApprovalIsPossible(s: System, t: TenantId, p: PodId, b: BridgeId, locked: set<PodId>, tx: nat, id: nat)
    requires Sound(s) && Choice(s.tables, locked, t, p, b)
    requires tx in s.world.subnets.held && tx !in s.world.vlans.held && id !in s.world.networks
    ensures exists s' :: Does(s, Approved(t, p, b, locked, tx, id, s.world.subnets.held[tx]), s')
  {
    var w, row := s.world, s.world.subnets.held[tx];
    var subnets := AddressPools.PoolState(w.subnets.rows[row := AddressPools.Row(true, None)], w.subnets.held - {tx},
                                          w.subnets.used[id := row]);
    var s' := System(Approval(s.tables, t, p, b), N.World(subnets, w.vlans, w.networks[id := Default(t, p, row)]));
    assert Does(s, Approved(t, p, b, locked, tx, id, row), s');
  }

  ghost predicate Sound(s: System) {
    Inv(s.tables) && N.Inv(s.world)
  }

  ghost predicate History(systems: seq<System>, steps: seq<Step>) {
    |systems| == |steps| + 1 && forall i :: 0 <= i < |steps| ==> Does(systems[i], steps[i], systems[i + 1])
  }

  lemma StepKeepsSound(s: System, e: Step, s': System)
    requires Sound(s) && Does(s, e, s')
    ensures Sound(s')
  {
    hide Inv, N.Inv;
    match e
    case OnTables(event) => NextKeepsInv(s.tables, event, s'.tables);
    case OnNetworks(change) => WorldKeepsInv(s.world, change, s'.world);
    case Approved(t, p, b, locked, tx, id, row) =>
      NextKeepsInv(s.tables, Approve(t, p, b, locked), s'.tables);
      N.CommitKeepsInv(s.world, tx, id, Default(t, p, row), s'.world);
  }

  lemma WorldKeepsInv(w: N.World, e: N.Event, w': N.World)
    requires N.Inv(w) && N.Next(w, e, w') && (e.Delete? ==> N.Live(w.networks, e.id))
    ensures N.Inv(w')
  {
    match e
    case Commit(tx, id, network) => N.CommitKeepsInv(w, tx, id, network, w');
    case Delete(id) => N.DeleteLiveKeepsInv(w, id, w');
    case _ => N.PoolStepKeepsInv(w, e, w');
  }

  lemma {:induction false} EveryHistoryIsSound(systems: seq<System>, steps: seq<Step>)
    requires History(systems, steps) && Sound(systems[0])
    ensures forall i :: 0 <= i < |systems| ==> Sound(systems[i])
  {
    hide Does, Sound;
    for i := 0 to |steps|
      invariant forall j :: 0 <= j <= i ==> Sound(systems[j])
    {
      StepKeepsSound(systems[i], steps[i], systems[i + 1]);
    }
  }

  // ---------------------------------------------------------------- one default network an approval

  function Defaults(s: System, t: TenantId): set<nat> {
    N.LiveDefaults(s.world.networks, t)
  }

  function Approvals(steps: seq<Step>, t: TenantId): nat {
    if steps == [] then 0
    else
      var last := steps[|steps| - 1];
      Approvals(steps[..|steps| - 1], t) + if last.Approved? && last.t == t then 1 else 0
  }

  lemma DefaultsAfter(s: System, e: Step, s': System, t: TenantId)
    requires Does(s, e, s')
    ensures |Defaults(s', t)| == |Defaults(s, t)| + if e.Approved? && e.t == t then 1 else 0
    ensures forall id :: id in Defaults(s, t) ==>
              id in Defaults(s', t) && s'.world.networks[id] == s.world.networks[id]
  {
    hide N.Next;
    match e
    case OnTables(_) =>
    case OnNetworks(change) => N.DefaultsOnlyGrow(s.world, change, s'.world, t);
    case Approved(u, p, _, _, tx, id, row) =>
      N.DefaultsOnlyGrow(s.world, N.Commit(tx, id, Default(u, p, row)), s'.world, t);
  }

  /** Over every history: the live default networks of a tenant are those it had and one more for
      each approval. A tenant that starts without one has two or more if and only if it was
      approved more than once. */
  lemma {:induction false} DefaultsCountApprovals(systems: seq<System>, steps: seq<Step>, t: TenantId)
    requires History(systems, steps)
    ensures |Defaults(systems[|steps|], t)| == |Defaults(systems[0], t)| + Approvals(steps, t)
    ensures forall id :: id in Defaults(systems[0], t) ==>
              id in Defaults(systems[|steps|], t)
              && systems[|steps|].world.networks[id] == systems[0].world.networks[id]
    decreases |steps|
  {
    hide Does, Defaults;
    if steps != [] {
      var n := |steps| - 1;
      DefaultsCountApprovals(systems[..n + 1], steps[..n], t);
      DefaultsAfter(systems[n], steps[n], systems[n + 1], t);
    }
  }

  /** The subnet row of a default network stays in use whatever happens to its tenant, and no
      other live network gets it. */
  lemma OldDefaultKeepsItsSubnet(systems: seq<System>, steps: seq<Step>, t: TenantId, id: nat, other: nat)
    requires History(systems, steps) && Sound(systems[0]) && id in Defaults(systems[0], t)
    ensures var row, w := systems[0].world.networks[id].subnet, systems[|steps|].world;
            && row in w.subnets.rows && w.subnets.rows[row] == AddressPools.Row(true, None)
            && (N.Live(w.networks, other) && other != id ==> w.networks[other].subnet != row)
  {
    EveryHistoryIsSound(systems, steps);
    DefaultsCountApprovals(systems, steps, t);
    var w := systems[|steps|].world;
    assert w.subnets.used[id] == systems[0].world.networks[id].subnet;
    if N.Live(w.networks, other) && other != id {
      assert w.subnets.used[other] == w.networks[other].subnet;
    }
  }

  // ---------------------------------------------------------------- what comes between two approvals

  /** The steps that take a tenant's bridge from it: the reset before a retry, and the manual
      release of a row it owns. */
  predicate Strips(d: Tables, e: Step, t: TenantId) {
    && e.OnTables?
    && (e.event == ResetError(t)
        || (e.event.Release? && e.event.b in d.bridges && d.bridges[e.event.b].owner == Some(t)))
  }

  predicate HasItsBridge(s: System, t: TenantId) {
    t in s.tables.tenants && s.tables.tenants[t].bridge.Some?
  }

  lemma BridgeStays(s: System, e: Step, s': System, t: TenantId)
    requires Sound(s) && Does(s, e, s') && HasItsBridge(s, t)
    ensures HasItsBridge(s', t) <==> !Strips(s.tables, e, t)
    ensures !(e.Approved? && e.t == t)
  {
    assert TenantOk(t, s.tables.tenants[t], s.tables.bridges);
  }

  ghost predicate StrippedIn(systems: seq<System>, steps: seq<Step>, t: TenantId, from: nat, to: nat)
    requires |systems| == |steps| + 1 && from <= to <= |steps|
  {
    exists k :: from <= k < to && Strips(systems[k].tables, steps[k], t)
  }

  /** Between two approvals of a tenant it was reset or one of its rows was released by hand. */
  lemma {:induction false} RetryFollowsStrip(systems: seq<System>, steps: seq<Step>, t: TenantId, i: nat, j: nat)
    requires History(systems, steps) && Sound(systems[0]) && i < j < |steps|
    requires steps[i].Approved? && steps[i].t == t && steps[j].Approved? && steps[j].t == t
    ensures StrippedIn(systems, steps, t, i + 1, j)
  {
    hide Sound, Strips;
    EveryHistoryIsSound(systems, steps);
    assert Does(systems[i], steps[i], systems[i + 1]);
    assert HasItsBridge(systems[i + 1], t);
    hide Does;
    var k := i + 1;
    while k < j && !Strips(systems[k].tables, steps[k], t)
      invariant i < k <= j && HasItsBridge(systems[k], t)
    {
      BridgeStays(systems[k], steps[k], systems[k + 1], t);
      k := k + 1;
    }
    if k == j {
      BridgeStays(systems[j], steps[j], systems[j + 1], t);
    }
  }
}
