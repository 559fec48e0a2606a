/** Approving a tenant inside a database session that does not flush before its queries: a query
    filters on committed rows, assignments stay in the session until the commit. */
module Provisioning {
  import opened Text
  import opened ProvisioningTables
  import AddressPools
  import NetworkRuns

  datatype Refusal =
    NotFound | WrongStatus | HasBridge | NoPod | NoBridge | NoSubnet | HypervisorFailed

  /** `Undispatched` is the exception of queueing the provisioning task, which comes after the
      commit. */
  datatype Outcome =
    | Started(pod: PodId, bridge: BridgeId)
    | Undispatched(pod: PodId, bridge: BridgeId)
    | Refused(reason: Refusal)
  datatype VerifyOutcome = UnknownTenant | AlreadyVerified | Answer(outcome: Outcome)

  ghost predicate SomePod(d: Tables, locked: set<PodId>) {
    exists p :: p in d.pods && p !in locked && HasRoom(d.pods[p])
  }

  ghost predicate SomeBridge(d: Tables) {
    exists b :: b in d.bridges && !d.bridges[b].inUse
  }

  /** Why an approval is refused: the first of the checks and allocations that fails. */
  ghost function Obstacle(d: Tables, locked: set<PodId>, t: TenantId, subnetFree: bool,
                          bridgeMade: bool): Option<Refusal> {
    if t !in d.tenants then Some(NotFound)
    else if d.tenants[t].status !in {PendingApproval, Verified, Error} then Some(WrongStatus)
    else if !Approvable(d.tenants[t]) then Some(HasBridge)
    else if !SomePod(d, locked) then Some(NoPod)
    else if !SomeBridge(d) then Some(NoBridge)
    else if !subnetFree then Some(NoSubnet)
    else if !bridgeMade then Some(HypervisorFailed)
    else None
  }

  /** The session's rows once a pod and a bridge are taken. */
  function Reserved(d: Tables, t: TenantId, p: PodId, b: BridgeId): Tables
    requires t in d.tenants && p in d.pods
  {
    Tables(d.tenants[t := d.tenants[t].(podId := Some(p))],
           d.bridges[b := Bridge(true, Some(t))],
           d.pods[p := d.pods[p].(count := d.pods[p].count + 1)])
  }

  /** The rows the approval starts from. */
  function BeforeApproval(d: Tables, t: TenantId): Tables
    requires t in d.tenants
  {
    if d.tenants[t].status == Error then Reset(d, t) else d
  }

  function Verifying(d: Tables, t: TenantId): Tables
    requires t in d.tenants
  {
    d.(tenants := d.tenants[t := d.tenants[t].(isVerified := true)])
  }

  /** The rows once the approval has been answered: verified unless its task was not queued. */
  function Answered(d: Tables, t: TenantId, outcome: Outcome): Tables
    requires !outcome.Refused? && t in d.tenants && outcome.pod in d.pods
  {
    var approved := Approval(d, t, outcome.pod, outcome.bridge);
    if outcome.Started? then Verifying(approved, t) else approved
  }

  /** A waiting tenant is refused for its status, and its bridge is neither available nor leaked. */
  lemma StuckIsRefused(d: Tables, t: TenantId, b: BridgeId, locked: set<PodId>, subnetFree: bool, bridgeMade: bool)
    requires Inv(d) && Stuck(d, t, b)
    ensures Obstacle(BeforeApproval(d, t), locked, t, subnetFree, bridgeMade) == Some(WrongStatus)
    ensures b in d.bridges && d.bridges[b] != AVAILABLE && b !in Leaked(d)
  {
    assert TenantOk(t, d.tenants[t], d.bridges);
  }

  /** A commit whose task was not queued leaves the tenant waiting for a worker nobody has asked.
      Over every run from there: unless a row of the tenant is released by hand, or a worker
      writes another status all the same, every attempt to verify or approve it is refused for
      its status. */
  lemma UndispatchedIsStuck(d: Tables, locked: set<PodId>, t: TenantId, p: PodId, b: BridgeId,
                            states: seq<Tables>, events: seq<Event>, n: nat,
                            later: set<PodId>, subnetFree: bool, bridgeMade: bool)
    requires Inv(d) && Choice(d, locked, t, p, b)
    requires Run(states, events) && states[0] == Approval(d, t, p, b) && n <= |events|
    ensures !UnstuckIn(states, events, t, 0, n) ==>
              && t in states[n].tenants
              && Obstacle(BeforeApproval(states[n], t), later, t, subnetFree, bridgeMade) == Some(WrongStatus)
  {
    ApproveKeepsInv(d, t, p, b, locked);
    EveryRunKeepsInv(states, events);
    StuckUntilUnstuck(states, events, t, b, 0, n);
    if !UnstuckIn(states, events, t, 0, n) {
      StuckIsRefused(states[n], t, b, later, subnetFree, bridgeMade);
    }
  }

  /** The network world after a default network for the tenant was added on a free subnet. */
  ghost predicate DefaultAdded(w: NetworkRuns.World, t: TenantId, p: PodId, id: nat, w': NetworkRuns.World) {
    exists row ::
      && row in w.subnets.rows && w.subnets.rows[row] == AddressPools.FREE
      && w'.subnets.rows == w.subnets.rows[row := AddressPools.Row(true, None)] && w'.vlans == w.vlans
      && w'.networks == w.networks[id := NetworkRuns.Network(t, p, row, None, true, false)]
  }

  /** Approving adds one live default network, so the tenant has two of them or more afterwards
      if and only if it had one before. */
  lemma ApprovalAddsDefault(w: NetworkRuns.World, t: TenantId, p: PodId, id: nat, w': NetworkRuns.World)
    requires DefaultAdded(w, t, p, id, w') && id !in w.networks
    ensures NetworkRuns.LiveDefaults(w'.networks, t) == NetworkRuns.LiveDefaults(w.networks, t) + {id}
    ensures |NetworkRuns.LiveDefaults(w'.networks, t)| == |NetworkRuns.LiveDefaults(w.networks, t)| + 1
    ensures |NetworkRuns.LiveDefaults(w'.networks, t)| >= 2 <==> NetworkRuns.LiveDefaults(w.networks, t) != {}
  {
    assert NetworkRuns.LiveDefaults(w'.networks, t) == NetworkRuns.LiveDefaults(w.networks, t) + {id};
  }

  class Session {
    var db: Tables
    var pending: Tables
    const service: NetworkRuns.NetworkService
    const tx: nat
    var subnet: Option<nat>

    constructor (db: Tables, service: NetworkRuns.NetworkService, tx: nat)
      ensures this.db == db && pending == db && this.service == service && this.tx == tx && subnet == None
    {
      this.db, pending, this.service, this.tx, subnet := db, db, service, tx, None;
    }

    /** Between requests nothing is pending and nothing is locked. */
    ghost predicate Clean()
      reads this, service, service.subnets, service.vlans
    {
      && pending == db && subnet == None && service.Valid()
      && tx !in service.subnets.held && tx !in service.vlans.held
    }

    ghost predicate Holding(w: NetworkRuns.World)
      reads this, service, service.subnets, service.vlans
    {
      service.Valid() && NetworkRuns.Holds(w, tx, subnet, service.View())
    }

    /** Highest count first; rows locked by another transaction are skipped. */
    method AssignPod(locked: set<PodId>) returns (best: Option<PodId>)
      ensures best.Some? ==> FullestPod(db.pods, locked, best.value)
      ensures best.None? <==> !SomePod(db, locked)
      ensures best.None? <==>
              forall p :: p in db.pods && p !in locked ==> !db.pods[p].active || db.pods[p].count >= db.pods[p].max
      ensures best.Some? ==>
                var best := best.value;
                && best in db.pods && best !in locked && db.pods[best].active && db.pods[best].count < db.pods[best].max
                && forall p :: p in db.pods && p !in locked && db.pods[best].count < db.pods[p].count ==>
                     !db.pods[p].active || db.pods[p].count >= db.pods[p].max
    {
      best := None;
      var todo := db.pods.Keys;
      while todo != {}
        invariant todo <= db.pods.Keys
        invariant best.Some? ==> best.value in db.pods && best.value !in locked && HasRoom(db.pods[best.value])
        invariant forall q :: q in db.pods && q !in todo && q !in locked && HasRoom(db.pods[q]) ==>
                    best.Some? && db.pods[q].count <= db.pods[best.value].count
        decreases |todo|
      {
        var p :| p in todo;
        todo := todo - {p};
        if p !in locked && HasRoom(db.pods[p]) && (best.None? || db.pods[best.value].count < db.pods[p].count) {
          best := Some(p);
        }
      }
    }

    method AllocateBridge(t: TenantId) returns (bridge: Option<BridgeId>)
      modifies `pending
      ensures bridge.None? <==> !SomeBridge(db)
      ensures bridge.None? ==> pending == old(pending)
      ensures bridge.Some? ==>
                && bridge.value in db.bridges && !db.bridges[bridge.value].inUse
                && pending == old(pending).(bridges := old(pending).bridges[bridge.value := Bridge(true, Some(t))])
    {
      if b :| b in db.bridges && !db.bridges[b].inUse {
        pending := pending.(bridges := pending.bridges[b := Bridge(true, Some(t))]);
        return Some(b);
      }
      bridge := None;
    }

    /** The query sees committed owners only, so the row taken in this session is never the one
        released. */
    method ReleaseBridge(t: TenantId) returns (bridge: Option<BridgeId>)
      modifies `pending
      ensures bridge.None? ==> forall b :: b in db.bridges ==> db.bridges[b].owner != Some(t)
      ensures bridge.None? ==> pending == old(pending)
      ensures bridge.Some? ==>
                && bridge.value in db.bridges && db.bridges[bridge.value].owner == Some(t)
                && pending == old(pending).(bridges := old(pending).bridges[bridge.value := AVAILABLE])
    {
      if b :| b in db.bridges && db.bridges[b].owner == Some(t) {
        pending := pending.(bridges := pending.bridges[b := AVAILABLE]);
        return Some(b);
      }
      bridge := None;
    }

    /** The checks and the first two allocations of `approve_tenant`. */
    method Reserve(t: TenantId, locked: set<PodId>) returns (r: Outcome)
      requires pending == db && BridgesOk(db.bridges)
      modifies `pending
      ensures r.Refused? <==> Obstacle(db, locked, t, true, true).Some?
      ensures r.Refused? ==> Some(r.reason) == Obstacle(db, locked, t, true, true)
      ensures !r.Undispatched?
      ensures r.Started? ==> Choice(db, locked, t, r.pod, r.bridge) && pending == Reserved(db, t, r.pod, r.bridge)
    {
      if t !in db.tenants {
        return Refused(NotFound);
      }
      var tenant := db.tenants[t];
      if tenant.status !in {PendingApproval, Verified, Error} {
        return Refused(WrongStatus);
      }
      if tenant.bridge.Some? && tenant.bridge.value != 0 {
        return Refused(HasBridge);
      }
      var pod := AssignPod(locked);
      if pod.None? {
        return Refused(NoPod);
      }
      var p := pod.value;
      pending := pending.(pods := pending.pods[p := pending.pods[p].(count := pending.pods[p].count + 1)]);
      pending := pending.(tenants := pending.tenants[t := tenant.(podId := Some(p))]);
      var bridge := AllocateBridge(t);
      if bridge.None? || bridge.value == 0 {
        return Refused(NoBridge);
      }
      r := Started(p, bridge.value);
    }

    method SetTenantFields(t: TenantId, p: PodId, b: BridgeId)
      requires t in db.tenants && p in db.pods && pending == Reserved(db, t, p, b)
      modifies `pending
      ensures pending == Approval(db, t, p, b)
    {
      pending := pending.(tenants :=
        pending.tenants[t := pending.tenants[t].(bridge := Some(b), vmId := Some(10000 + (b - 100)),
                                                 status := Provisioning)]);
    }

    /** `approve_tenant`. It succeeds unless there is an obstacle, and then commits the whole
        approval at once; a refusal leaves what it took to the caller's rollback and the
        committed rows untouched. When the task cannot be queued, the call raises although the
        approval is committed. */
    method ApproveTenant(t: TenantId, locked: set<PodId>, bridgeMade: bool, dispatched: bool) returns (r: Outcome)
      requires Clean() && BridgesOk(db.bridges)
      modifies this, service, service.subnets, service.vlans
      ensures r.Refused? ==> Holding(old(service.View())) && db == old(db)
      ensures var o := Obstacle(old(db), locked, t, old(NetworkRuns.SomeSubnetFree(service.subnets.rows)), bridgeMade);
              (r.Refused? <==> o.Some?) && (r.Refused? ==> Some(r.reason) == o)
      ensures !r.Refused? ==>
                && (r.Started? <==> dispatched)
                && Choice(old(db), locked, t, r.pod, r.bridge)
                && old(db).pods[r.pod].active && old(db).pods[r.pod].count < old(db).pods[r.pod].max
                && db == Approval(old(db), t, r.pod, r.bridge) && Clean()
                && DefaultAdded(old(service.View()), t, r.pod, old(service.nextId), service.View())
    {
      r := Reserve(t, locked);
      if r.Refused? {
        return;
      }
      subnet := service.BeginDefault(tx);
      if subnet.None? {
        return Refused(NoSubnet);
      }
      if !bridgeMade {
        var released := ReleaseBridge(t);
        return Refused(HypervisorFailed);
      }
      var p, b := r.pod, r.bridge;
      SetTenantFields(t, p, b);
      CommitDefault(t, p, old(service.View()));
      if !dispatched {
        r := Undispatched(p, b);
      }
    }

    /** `db.commit()` with the default network added, since the world `w` the subnet was taken
        in. */
    method CommitDefault(t: TenantId, p: PodId, ghost w: NetworkRuns.World)
      requires Holding(w) && subnet.Some? && tx !in service.vlans.held
      modifies this, service, service.subnets, service.vlans
      ensures db == old(pending) && Clean()
      ensures DefaultAdded(w, t, p, old(service.nextId), service.View())
    {
      var row := subnet.value;
      ghost var id := service.nextId;
      service.CommitNetwork(tx, NetworkRuns.Network(t, p, row, None, true, false));
      db := pending;
      subnet := None;
      assert service.networks == w.networks[id := NetworkRuns.Network(t, p, row, None, true, false)];
      assert service.subnets.rows == w.subnets.rows[row := AddressPools.Row(true, None)];
    }

    method Rollback(ghost w: NetworkRuns.World)
      requires Holding(w)
      modifies this, service.subnets
      ensures db == old(db) && pending == db && subnet == None && service.Valid() && service.View() == w
    {
      service.AbortDefault(tx, subnet, w);
      pending := db;
      subnet := None;
    }

    /** `verify_tenant`: a tenant in error is reset and committed first, then approved. A refused
        approval is rolled back together with the error status just written, so no tenant is
        ever left in error by it. When the task cannot be queued, the answer is a failure too,
        but the approval stays committed and the tenant unverified. */
    method VerifyTenant(t: TenantId, locked: set<PodId>, bridgeMade: bool, dispatched: bool) returns (r: VerifyOutcome)
      requires Clean() && Inv(db)
      modifies this, service, service.subnets, service.vlans
      ensures Clean() && Inv(db)
      ensures r.UnknownTenant? <==> t !in old(db).tenants
      ensures r.AlreadyVerified? <==> t in old(db).tenants && old(db).tenants[t].isVerified
      ensures !r.Answer? ==> db == old(db)
      ensures r.Answer? ==>
                var start := BeforeApproval(old(db), t);
                && (r.outcome.Refused? ==> db == start && db.tenants[t].status != Error
                                           && service.View() == old(service.View()))
                && (!r.outcome.Refused? ==>
                      && (r.outcome.Started? <==> dispatched)
                      && Choice(start, locked, t, r.outcome.pod, r.outcome.bridge)
                      && db == Answered(start, t, r.outcome)
                      && DefaultAdded(old(service.View()), t, r.outcome.pod, old(service.nextId), service.View()))
    {
      if t !in db.tenants {
        return UnknownTenant;
      }
      if db.tenants[t].isVerified {
        return AlreadyVerified;
      }
      if db.tenants[t].status == Error {
        ResetKeepsInv(db, t);
        pending := pending.(tenants :=
          pending.tenants[t := pending.tenants[t].(status := PendingApproval, bridge := None, vmId := None)]);
        db := pending;
      }
      ghost var start := db;
      var outcome := ApproveTenant(t, locked, bridgeMade, dispatched);
      if !outcome.Refused? {
        ApproveKeepsInv(start, t, outcome.pod, outcome.bridge, locked);
      }
      if !outcome.Started? {
        ghost var held := if outcome.Refused? then old(service.View()) else service.View();
        pending := if t in pending.tenants
          then pending.(tenants := pending.tenants[t := pending.tenants[t].(status := Error)]) else pending;
        Rollback(held);
      } else {
        TenantStepKeepsInv(db, MarkVerified(t), Verifying(db, t));
        pending := pending.(tenants := pending.tenants[t := pending.tenants[t].(isVerified := true)]);
      }
      db := pending;
      r := Answer(outcome);
    }

    /** The super admin's `release_bridge`: 404 without such a row, 400 when it is available. */
    method ReleaseByHand(b: BridgeId) returns (ok: bool)
      requires Clean() && Inv(db)
      modifies this
      ensures Clean() && Inv(db)
      ensures ok <==> b in old(db).bridges && old(db).bridges[b].inUse
      ensures db == if ok then Released(old(db), b) else old(db)
    {
      if b !in db.bridges || !db.bridges[b].inUse {
        return false;
      }
      ReleaseKeepsInv(db, b);
      var owner := db.bridges[b].owner;
      if owner.Some? && owner.value != 0 && owner.value in pending.tenants {
        pending := pending.(tenants :=
          pending.tenants[owner.value := pending.tenants[owner.value].(bridge := None, vmId := None, status := Error)]);
      }
      pending := pending.(bridges := pending.bridges[b := AVAILABLE]);
      db := pending;
      ok := true;
    }
  }
}
