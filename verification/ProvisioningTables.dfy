/** Tenants, bridges and pods: what one committed step does to the rows, and what every run of
    the steps keeps. */
module ProvisioningTables {
  import opened Sets
  import opened Text

  type TenantId = nat
  type BridgeId = nat
  type PodId = nat

  datatype Status =
    Pending | PendingApproval | Verified | Provisioning | Active | Suspended | Deprovisioned | Error

  datatype Tenant = Tenant(status: Status, isVerified: bool, podId: Option<PodId>, bridge: Option<BridgeId>,
                           vmId: Option<int>)

  datatype Bridge = Bridge(inUse: bool, owner: Option<TenantId>)

  const AVAILABLE := Bridge(false, None)

  datatype Pod = Pod(active: bool, count: int, max: int)

  type Tenants = map<TenantId, Tenant>
  type Bridges = map<BridgeId, Bridge>
  type Pods = map<PodId, Pod>

  datatype Tables = Tables(tenants: Tenants, bridges: Bridges, pods: Pods)

  // ---------------------------------------------------------------- the invariant

  /** A tenant with a bridge owns that bridge's row, and its firewall VM has the bridge's id. */
  ghost predicate TenantOk(t: TenantId, tenant: Tenant, bridges: Bridges) {
    match tenant.bridge
    case None => tenant.vmId == None
    case Some(b) => b in bridges && bridges[b] == Bridge(true, Some(t)) && tenant.vmId == Some(9900 + b)
  }

  ghost predicate TenantsOk(tenants: Tenants, bridges: Bridges) {
    0 !in tenants && forall t :: t in tenants ==> TenantOk(t, tenants[t], bridges)
  }

  ghost predicate BridgesOk(bridges: Bridges) {
    forall b :: b in bridges ==> 100 <= b && (bridges[b].inUse <==> bridges[b].owner.Some?)
  }

  function Assigned(tenants: Tenants, p: PodId): set<TenantId> {
    set t | t in tenants && tenants[t].podId == Some(p)
  }

  /** A pod counts at least its tenants and at most its capacity. */
  ghost predicate PodsOk(tenants: Tenants, pods: Pods) {
    forall p :: p in pods ==> |Assigned(tenants, p)| <= pods[p].count <= pods[p].max
  }

  ghost predicate Inv(d: Tables) {
    TenantsOk(d.tenants, d.bridges) && BridgesOk(d.bridges) && PodsOk(d.tenants, d.pods)
  }

  /** The seeded tables, before the first tenant. */
  lemma SeededIsConsistent(d: Tables)
    requires d.tenants == map[]
    requires forall b :: b in d.bridges ==> 100 <= b && d.bridges[b] == Bridge(false, None)
    requires forall p :: p in d.pods ==> d.pods[p].count == 0 <= d.pods[p].max
    ensures Inv(d)
  {
    forall p | p in d.pods
      ensures Assigned(d.tenants, p) == {}
    {
    }
  }

  /** No bridge and no firewall VM id belongs to two tenants. */
  lemma TenantsNeverShare(d: Tables, s: TenantId, t: TenantId)
    requires Inv(d) && s in d.tenants && t in d.tenants && s != t && d.tenants[s].bridge.Some?
    ensures d.tenants[s].bridge != d.tenants[t].bridge && d.tenants[s].vmId != d.tenants[t].vmId
  {
    assert TenantOk(s, d.tenants[s], d.bridges) && TenantOk(t, d.tenants[t], d.bridges);
  }

  // ---------------------------------------------------------------- committed steps

  predicate Approvable(tenant: Tenant) {
    && tenant.status in {PendingApproval, Verified, Error}
    && (tenant.bridge.None? || tenant.bridge.value == 0)
  }

  predicate HasRoom(pod: Pod) {
    pod.active && pod.count < pod.max
  }

  /** `assign_pod`: the fullest active pod with room, among those nobody has locked. */
  ghost predicate FullestPod(pods: Pods, locked: set<PodId>, p: PodId) {
    && p in pods && p !in locked && HasRoom(pods[p])
    && forall q :: q in pods && q !in locked && HasRoom(pods[q]) ==> pods[q].count <= pods[p].count
  }

  ghost predicate Choice(d: Tables, locked: set<PodId>, t: TenantId, p: PodId, b: BridgeId) {
    && t in d.tenants && Approvable(d.tenants[t])
    && FullestPod(d.pods, locked, p)
    && b in d.bridges && !d.bridges[b].inUse
  }

  function Approval(d: Tables, t: TenantId, p: PodId, b: BridgeId): Tables
    requires t in d.tenants && p in d.pods
  {
    Tables(d.tenants[t := d.tenants[t].(podId := Some(p), bridge := Some(b), vmId := Some(10000 + (b - 100)),
                                        status := Provisioning)],
           d.bridges[b := Bridge(true, Some(t))],
           d.pods[p := d.pods[p].(count := d.pods[p].count + 1)])
  }

  function Reset(d: Tables, t: TenantId): Tables
    requires t in d.tenants
  {
    d.(tenants := d.tenants[t := d.tenants[t].(status := PendingApproval, bridge := None, vmId := None)])
  }

  function Stripped(tenants: Tenants, owner: Option<TenantId>): Tenants {
    if owner.Some? && owner.value != 0 && owner.value in tenants then
      tenants[owner.value := tenants[owner.value].(bridge := None, vmId := None, status := Error)]
    else tenants
  }

  function Released(d: Tables, b: BridgeId): Tables
    requires b in d.bridges
  {
    d.(tenants := Stripped(d.tenants, d.bridges[b].owner), bridges := d.bridges[b := AVAILABLE])
  }

  datatype Event =
    | Approve(t: TenantId, p: PodId, b: BridgeId, locked: set<PodId>)
    | ResetError(t: TenantId)
    | MarkVerified(t: TenantId)
    | Release(b: BridgeId)
    | Report(t: TenantId, status: Status)
    | SignUp(t: TenantId)
    | AddPod(p: PodId, max: nat)
    | ResizePod(p: PodId, capacity: int, active: bool)
    | DeletePod(p: PodId)

  /** `Report` is a worker task writing a tenant's status; the rest are API handlers. */
  ghost predicate Next(d: Tables, e: Event, d': Tables) {
    match e
    case Approve(t, p, b, locked) => Choice(d, locked, t, p, b) && d' == Approval(d, t, p, b)
    case ResetError(t) => t in d.tenants && d.tenants[t].status == Error && d' == Reset(d, t)
    case MarkVerified(t) => t in d.tenants && d' == d.(tenants := d.tenants[t := d.tenants[t].(isVerified := true)])
    case Release(b) => b in d.bridges && d.bridges[b].inUse && d' == Released(d, b)
    case Report(t, status) => t in d.tenants && d' == d.(tenants := d.tenants[t := d.tenants[t].(status := status)])
    case SignUp(t) =>
      t !in d.tenants && t != 0 && d' == d.(tenants := d.tenants[t := Tenant(PendingApproval, false, None, None, None)])
    case AddPod(p, max) => p !in d.pods && Assigned(d.tenants, p) == {}
        && d' == d.(pods := d.pods[p := Pod(true, 0, max)])
    case ResizePod(p, capacity, active) =>
      p in d.pods && d.pods[p].count <= capacity
          && d' == d.(pods := d.pods[p := d.pods[p].(max := capacity, active := active)])
    case DeletePod(p) => p in d.pods && d.pods[p].count <= 0 && d' == d.(pods := d.pods - {p})
  }

  /** What the handlers without an allocation leave behind, and nothing else changes. */
  lemma HandlerEffects(d: Tables, e: Event, d': Tables)
    requires Next(d, e, d')
    ensures e.MarkVerified? ==>
              e.t in d'.tenants && d'.tenants[e.t].isVerified
              && d'.tenants[e.t].(isVerified := d.tenants[e.t].isVerified) == d.tenants[e.t]
    ensures e.SignUp? ==> e.t in d'.tenants && d'.tenants[e.t] == Tenant(PendingApproval, false, None, None, None)
    ensures e.ResetError? ==> e.t in d'.tenants && d'.tenants[e.t].status == PendingApproval
    ensures e.MarkVerified? || e.Report? || e.SignUp? || e.ResetError? ==>
              && d'.tenants - {e.t} == d.tenants - {e.t} && d'.bridges == d.bridges && d'.pods == d.pods
    ensures e.AddPod? ==> e.p in d'.pods && d'.pods[e.p] == Pod(true, 0, e.max)
    ensures e.ResizePod? ==> e.p in d'.pods && d'.pods[e.p] == Pod(e.active, d.pods[e.p].count, e.capacity)
    ensures e.DeletePod? ==> e.p !in d'.pods
    ensures e.AddPod? || e.ResizePod? || e.DeletePod? ==>
              d'.pods - {e.p} == d.pods - {e.p} && d'.tenants == d.tenants && d'.bridges == d.bridges
  {
  }

  /** When a pod can be resized and deleted: not below its count, and only with a count of zero. */
  lemma PodHandlersAccept(d: Tables, p: PodId, capacity: int, active: bool)
    requires p in d.pods
    ensures (exists d' :: Next(d, ResizePod(p, capacity, active), d')) <==> capacity >= d.pods[p].count
    ensures (exists d' :: Next(d, DeletePod(p), d')) <==> !(d.pods[p].count > 0)
  {
    var resized := d.(pods := d.pods[p := d.pods[p].(max := capacity, active := active)]);
    var deleted := d.(pods := d.pods - {p});
    assert capacity >= d.pods[p].count ==> Next(d, ResizePod(p, capacity, active), resized);
    assert d.pods[p].count <= 0 ==> Next(d, DeletePod(p), deleted);
  }

  // ---------------------------------------------------------------- every step keeps the invariant

  /** Tenants keep their bridges when a row that none of them but `t` may hold changes. */
  lemma RowChange(d: Tables, b: BridgeId, row: Bridge, t: TenantId, tenant: Tenant)
    requires TenantsOk(d.tenants, d.bridges) && t in d.tenants
    requires b in d.bridges && (d.bridges[b].owner == Some(t) || !d.bridges[b].inUse)
    requires TenantOk(t, tenant, d.bridges[b := row])
    ensures TenantsOk(d.tenants[t := tenant], d.bridges[b := row])
  {
    var tenants', bridges' := d.tenants[t := tenant], d.bridges[b := row];
    forall s | s in tenants'
      ensures TenantOk(s, tenants'[s], bridges')
    {
      if s != t {
        assert TenantOk(s, d.tenants[s], d.bridges);
      }
    }
  }

  function On(tenant: Tenant, p: PodId): int {
    if tenant.podId == Some(p) then 1 else 0
  }

  /** Writing one tenant row moves one tenant between pods. */
  lemma AssignedAfter(tenants: Tenants, t: TenantId, tenant: Tenant, p: PodId)
    requires t in tenants
    ensures |Assigned(tenants[t := tenant], p)| == |Assigned(tenants, p)| - On(tenants[t], p) + On(tenant, p)
  {
    var others := Assigned(tenants, p) - {t};
    assert Assigned(tenants, p) == if tenants[t].podId == Some(p) then others + {t} else others;
    assert Assigned(tenants[t := tenant], p) == if tenant.podId == Some(p) then others + {t} else others;
  }

  /** A change of one tenant row that leaves its pod alone keeps the pod counts. */
  lemma SamePod(tenants: Tenants, pods: Pods, t: TenantId, tenant: Tenant)
    requires PodsOk(tenants, pods) && t in tenants && tenant.podId == tenants[t].podId
    ensures PodsOk(tenants[t := tenant], pods)
  {
    forall p | p in pods
      ensures |Assigned(tenants[t := tenant], p)| <= pods[p].count <= pods[p].max
    {
      AssignedAfter(tenants, t, tenant, p);
    }
  }

  lemma ApproveKeepsInv(d: Tables, t: TenantId, p: PodId, b: BridgeId, locked: set<PodId>)
    requires Inv(d) && Choice(d, locked, t, p, b)
    ensures Inv(Approval(d, t, p, b))
  {
    var d' := Approval(d, t, p, b);
    RowChange(d, b, Bridge(true, Some(t)), t, d'.tenants[t]);
    forall q | q in d'.pods
      ensures |Assigned(d'.tenants, q)| <= d'.pods[q].count <= d'.pods[q].max
    {
      AssignedAfter(d.tenants, t, d'.tenants[t], q);
    }
  }

  lemma ResetKeepsInv(d: Tables, t: TenantId)
    requires Inv(d) && t in d.tenants
    ensures Inv(Reset(d, t))
  {
    SamePod(d.tenants, d.pods, t, Reset(d, t).tenants[t]);
  }

  lemma ReleaseKeepsInv(d: Tables, b: BridgeId)
    requires Inv(d) && b in d.bridges && d.bridges[b].inUse
    ensures Inv(Released(d, b))
  {
    var d' := Released(d, b);
    var owner := d.bridges[b].owner.value;
    if owner in d.tenants {
      RowChange(d, b, AVAILABLE, owner, d'.tenants[owner]);
      SamePod(d.tenants, d.pods, owner, d'.tenants[owner]);
    }
  }

  lemma TenantStepKeepsInv(d: Tables, e: Event, d': Tables)
    requires Inv(d) && Next(d, e, d') && (e.MarkVerified? || e.Report? || e.SignUp?)
    ensures Inv(d')
  {
    if e.SignUp? {
      forall p | p in d.pods
        ensures Assigned(d'.tenants, p) == Assigned(d.tenants, p)
      {
      }
    } else {
      SamePod(d.tenants, d.pods, e.t, d'.tenants[e.t]);
    }
  }

  lemma NextKeepsInv(d: Tables, e: Event, d': Tables)
    requires Inv(d) && Next(d, e, d')
    ensures Inv(d')
  {
    match e
    case Approve(t, p, b, locked) => ApproveKeepsInv(d, t, p, b, locked);
    case ResetError(t) => ResetKeepsInv(d, t);
    case Release(b) => ReleaseKeepsInv(d, b);
    case AddPod(_, _) =>
    case ResizePod(_, _, _) =>
    case DeletePod(_) =>
    case _ => TenantStepKeepsInv(d, e, d');
  }

  ghost predicate Run(states: seq<Tables>, events: seq<Event>) {
    |states| == |events| + 1 && forall i :: 0 <= i < |events| ==> Next(states[i], events[i], states[i + 1])
  }

  /** Over every run: a tenant's bridge row is in use by it, its VM id is 9900 plus the bridge
      number, no two tenants share either, and no pod exceeds its capacity. */
  lemma {:induction false} EveryRunKeepsInv(states: seq<Tables>, events: seq<Event>)
    requires Run(states, events) && Inv(states[0])
    ensures forall i :: 0 <= i < |states| ==> Inv(states[i])
  {
    for i := 0 to |events|
      invariant forall j :: 0 <= j <= i ==> Inv(states[j])
    {
      NextKeepsInv(states[i], events[i], states[i + 1]);
    }
  }

  // ---------------------------------------------------------------- leaked bridges

  /** Rows in use by a tenant that does not hold them. */
  predicate Leaks(d: Tables, b: BridgeId) {
    && b in d.bridges && d.bridges[b].inUse && d.bridges[b].owner.Some?
    && var t := d.bridges[b].owner.value;
       !(t in d.tenants && d.tenants[t].bridge == Some(b))
  }

  function Leaked(d: Tables): set<BridgeId> {
    set b | b in d.bridges && Leaks(d, b)
  }

  /** Every bridge row is available, held by exactly one tenant, or leaked. */
  lemma BridgePartition(d: Tables, b: BridgeId)
    requires Inv(d) && b in d.bridges
    ensures d.bridges[b] == AVAILABLE <==>
            !(b in Leaked(d)) && !exists t :: t in d.tenants && d.tenants[t].bridge == Some(b)
    ensures b in Leaked(d) ==> forall t :: t in d.tenants ==> d.tenants[t].bridge != Some(b)
  {
    forall t | t in d.tenants && d.tenants[t].bridge == Some(b)
      ensures d.bridges[b] == Bridge(true, Some(t))
    {
      assert TenantOk(t, d.tenants[t], d.bridges);
    }
  }

  /** The reset before a retry abandons the tenant's row: nothing but a manual release ever
      makes it available again. */
  lemma ResetLeaks(d: Tables, t: TenantId)
    requires Inv(d) && t in d.tenants
    ensures Leaked(Reset(d, t)) == if d.tenants[t].bridge.Some? then Leaked(d) + {d.tenants[t].bridge.value}
                  else Leaked(d)
  {
    assert TenantOk(t, d.tenants[t], d.bridges);
  }

  lemma ApprovalLeaksNothing(d: Tables, t: TenantId, p: PodId, b: BridgeId, locked: set<PodId>)
    requires Inv(d) && Choice(d, locked, t, p, b)
    ensures Leaked(Approval(d, t, p, b)) == Leaked(d)
  {
    var d' := Approval(d, t, p, b);
    assert TenantOk(t, d.tenants[t], d.bridges);
    forall c
      ensures c in Leaked(d') <==> c in Leaked(d)
    {
      if c != b && c in d.bridges && d.bridges[c].owner == Some(t) {
        assert d'.tenants[t].bridge != Some(c) && d.tenants[t].bridge != Some(c);
      }
    }
  }

  /** The bridge a release of `b` takes from the row's owner although it is not `b`. */
  function Collateral(d: Tables, b: BridgeId): (c: Option<BridgeId>)
    requires b in d.bridges
  {
    match d.bridges[b].owner
    case None => None
    case Some(t) => if t in d.tenants && d.tenants[t].bridge != Some(b) then d.tenants[t].bridge else None
  }

  lemma ReleaseLeak(d: Tables, b: BridgeId, x: BridgeId)
    requires Inv(d) && b in d.bridges && d.bridges[b].inUse
    ensures x in Leaked(Released(d, b)) <==> x != b && (x in Leaked(d) || Collateral(d, b) == Some(x))
  {
    var t := d.bridges[b].owner.value;
    if t in d.tenants {
      assert TenantOk(t, d.tenants[t], d.bridges) && t != 0;
    }
  }

  /** Releasing a row by hand clears whatever bridge its owner holds by then. When that is
      another one, it becomes the leak, and the tenant loses a bridge that nobody released. */
  lemma ReleaseMovesLeak(d: Tables, b: BridgeId)
    requires Inv(d) && b in d.bridges && d.bridges[b].inUse
    ensures Collateral(d, b).None? ==> Leaked(Released(d, b)) == Leaked(d) - {b}
    ensures Collateral(d, b).Some? ==>
              && b in Leaked(d) && Collateral(d, b).value !in Leaked(d)
              && Leaked(Released(d, b)) == Leaked(d) - {b} + {Collateral(d, b).value}
              && |Leaked(Released(d, b))| == |Leaked(d)|
  {
    forall x
      ensures x in Leaked(Released(d, b)) <==> x != b && (x in Leaked(d) || Collateral(d, b) == Some(x))
    {
      ReleaseLeak(d, b, x);
    }
    if Collateral(d, b).Some? {
      var t := d.bridges[b].owner.value;
      assert TenantOk(t, d.tenants[t], d.bridges);
      assert Leaked(Released(d, b)) == Leaked(d) - {b} + {Collateral(d, b).value};
    }
  }

  /** Nothing but a manual release of the row itself ends a leak. */
  lemma LeaksPersist(d: Tables, e: Event, d': Tables, b: BridgeId)
    requires Inv(d) && Next(d, e, d') && b in Leaked(d) && e != Release(b)
    ensures b in Leaked(d')
  {
    match e
    case Approve(t, p, c, locked) => ApprovalLeaksNothing(d, t, p, c, locked);
    case ResetError(t) => ResetLeaks(d, t);
    case Release(c) => ReleaseLeak(d, c, b);
    case _ =>
  }

  // ---------------------------------------------------------------- waiting for a provisioning task

  /** The tenant has been approved on bridge `b` and waits for its worker. */
  predicate Stuck(d: Tables, t: TenantId, b: BridgeId) {
    t in d.tenants && d.tenants[t].status == Provisioning && d.tenants[t].bridge == Some(b)
  }

  /** The steps that end the wait: a manual release of a row the tenant owns, or a worker that
      writes another status. */
  predicate Unsticks(d: Tables, e: Event, t: TenantId) {
    || (e.Release? && e.b in d.bridges && d.bridges[e.b].owner == Some(t))
    || (e.Report? && e.t == t && e.status != Provisioning)
  }

  /** While a tenant waits, no approval and no reset of it can happen, and exactly the steps
      above end the wait. */
  lemma OnlyThoseUnstick(d: Tables, e: Event, d': Tables, t: TenantId, b: BridgeId)
    requires Inv(d) && Stuck(d, t, b) && Next(d, e, d')
    ensures Stuck(d', t, b) <==> !Unsticks(d, e, t)
    ensures !(e.Approve? && e.t == t) && !(e.ResetError? && e.t == t)
  {
    assert TenantOk(t, d.tenants[t], d.bridges);
  }

  ghost predicate UnstuckIn(states: seq<Tables>, events: seq<Event>, t: TenantId, from: nat, to: nat)
    requires |states| == |events| + 1 && from <= to <= |events|
  {
    exists k :: from <= k < to && Unsticks(states[k], events[k], t)
  }

  /** Over every run: a tenant that waits at `from` has waited all the time up to `to` if and only
      if none of these steps came in between; and an approval or reset of it later on comes after
      one of them. */
  lemma {:induction false} StuckUntilUnstuck(states: seq<Tables>, events: seq<Event>, t: TenantId, b: BridgeId,
                                             from: nat, to: nat)
    requires Run(states, events) && Inv(states[0]) && from <= to <= |events| && Stuck(states[from], t, b)
    ensures (forall k :: from <= k <= to ==> Stuck(states[k], t, b)) <==> !UnstuckIn(states, events, t, from, to)
    ensures to < |events| && (events[to].Approve? || events[to].ResetError?) && events[to].t == t ==>
              UnstuckIn(states, events, t, from, to)
  {
    hide Next, Unsticks, Inv, Stuck;
    EveryRunKeepsInv(states, events);
    var i := from;
    while i < to && !Unsticks(states[i], events[i], t)
      invariant from <= i <= to && !UnstuckIn(states, events, t, from, i)
      invariant forall k :: from <= k <= i ==> Stuck(states[k], t, b)
    {
      OnlyThoseUnstick(states[i], events[i], states[i + 1], t, b);
      i := i + 1;
    }
    if i < to {
      OnlyThoseUnstick(states[i], events[i], states[i + 1], t, b);
    } else if to < |events| {
      OnlyThoseUnstick(states[to], events[to], states[to + 1], t, b);
    }
  }

  /** The way out is the manual release of the row: it leaves the tenant in error without a
      bridge and with the row available, and so ready for another approval. */
  lemma ReleaseUnsticks(d: Tables, t: TenantId, b: BridgeId)
    requires Inv(d) && Stuck(d, t, b)
    ensures b in d.bridges
    ensures var d' := Released(d, b);
            && Next(d, Release(b), d')
            && t in d'.tenants && d'.tenants[t].status == Error && d'.tenants[t].bridge == None
            && Approvable(d'.tenants[t]) && d'.bridges[b] == AVAILABLE
  {
    assert TenantOk(t, d.tenants[t], d.bridges);
  }

  // ---------------------------------------------------------------- what a pod counts

  /** Approvals that put a tenant on pod `p`. */
  function ApprovalsOn(events: seq<Event>, p: PodId): nat {
    if events == [] then 0
    else
      var last := events[|events| - 1];
      ApprovalsOn(events[..|events| - 1], p) + if last.Approve? && last.p == p then 1 else 0
  }

  /** An approval of a tenant that is on `p` already, wherever it is sent. */
  predicate Reapproves(d: Tables, e: Event, p: PodId) {
    e.Approve? && e.t in d.tenants && d.tenants[e.t].podId == Some(p)
  }

  function Reapprovals(states: seq<Tables>, events: seq<Event>, p: PodId): nat
    requires |states| >= |events|
  {
    if events == [] then 0
    else
      var n := |events| - 1;
      Reapprovals(states, events[..n], p) + if Reapproves(states[n], events[n], p) then 1 else 0
  }

  lemma CountStep(d: Tables, e: Event, d': Tables, p: PodId)
    requires Inv(d) && Next(d, e, d') && p in d.pods && (e != DeletePod(p) || d.pods[p].count > 0)
    ensures p in d'.pods && d'.pods[p].count == d.pods[p].count + (if e.Approve? && e.p == p then 1 else 0)
    ensures d'.pods[p].count - |Assigned(d'.tenants, p)| ==
            d.pods[p].count - |Assigned(d.tenants, p)| + if Reapproves(d, e, p) then 1 else 0
  {
    match e
    case Approve(t, _, _, _) => AssignedAfter(d.tenants, t, d'.tenants[t], p);
    case ResetError(t) => AssignedAfter(d.tenants, t, d'.tenants[t], p);
    case MarkVerified(t) => AssignedAfter(d.tenants, t, d'.tenants[t], p);
    case Report(t, _) => AssignedAfter(d.tenants, t, d'.tenants[t], p);
    case Release(b) =>
      var owner := d.bridges[b].owner;
      if owner.Some? && owner.value in d'.tenants {
        AssignedAfter(d.tenants, owner.value, d'.tenants[owner.value], p);
      }
    case SignUp(_) => assert Assigned(d'.tenants, p) == Assigned(d.tenants, p);
    case _ =>
  }

  /** Over every run in which pod `p` stays, its count grows by the approvals on it and never
      goes down; and what it counts beyond its tenants grows by the approvals of tenants that
      were on it already, so that each retry takes a place for good. */
  lemma {:induction false} PodCountsApprovals(states: seq<Tables>, events: seq<Event>, p: PodId)
    requires Run(states, events) && Inv(states[0]) && p in states[0].pods
    requires DeletePod(p) in events ==> states[0].pods[p].count > 0
    ensures var first, last := states[0], states[|events|];
            && p in last.pods
            && last.pods[p].count == first.pods[p].count + ApprovalsOn(events, p)
            && last.pods[p].count - |Assigned(last.tenants, p)| ==
               first.pods[p].count - |Assigned(first.tenants, p)| + Reapprovals(states, events, p)
    decreases |events|
  {
    hide Next, Inv, Assigned;
    if events != [] {
      var n := |events| - 1;
      EveryRunKeepsInv(states, events);
      PodCountsApprovals(states[..n + 1], events[..n], p);
      SameReapprovals(states[..n + 1], states, events[..n], p);
      CountStep(states[n], events[n], states[n + 1], p);
    }
  }

  lemma {:induction false} SameReapprovals(prefix: seq<Tables>, states: seq<Tables>, events: seq<Event>, p: PodId)
    requires |events| <= |prefix| && prefix <= states
    ensures Reapprovals(prefix, events, p) == Reapprovals(states, events, p)
  {
    if events != [] {
      SameReapprovals(prefix, states, events[..|events| - 1], p);
    }
  }

  // ---------------------------------------------------------------- which pods get tenants

  /** The conditions of an approval in the columns of the rows: a tenant that waits for one and
      has no bridge, the fullest unlocked active pod below its capacity, and a bridge nobody has. */
  lemma ApprovalConditions(d: Tables, e: Event, d': Tables)
    requires Next(d, e, d') && e.Approve?
    ensures e.t in d.tenants && d.tenants[e.t].status in {PendingApproval, Verified, Error}
    ensures d.tenants[e.t].bridge in {None, Some(0)}
    ensures e.p in d.pods && e.p !in e.locked && d.pods[e.p].active && d.pods[e.p].count < d.pods[e.p].max
    ensures forall q :: q in d.pods && q !in e.locked && d.pods[q].active && d.pods[q].count < d.pods[q].max ==>
              d.pods[q].count <= d.pods[e.p].count
    ensures e.b in d.bridges && !d.bridges[e.b].inUse
  {
  }

  predicate InService(d: Tables, p: PodId) {
    p in d.pods && d.pods[p].active
  }

  /** Over every run: a pod in maintenance gets no tenant until it is put back into service, or
      created again. */
  lemma {:induction false} NoTenantInMaintenance(states: seq<Tables>, events: seq<Event>, p: PodId, from: nat, to: nat)
    requires Run(states, events) && from <= to < |events|
    requires p in states[from].pods ==> !states[from].pods[p].active
    requires events[to].Approve? && events[to].p == p
    ensures exists k :: from <= k < to && ((events[k].AddPod? && events[k].p == p)
                                           || (events[k].ResizePod? && events[k].p == p && events[k].active))
  {
    var i := from;
    while i < to && !InService(states[i + 1], p)
      invariant from <= i <= to && !InService(states[i], p)
    {
      i := i + 1;
    }
    assert Next(states[i], events[i], states[i + 1]);
    if i == to {
      ApprovalConditions(states[to], events[to], states[to + 1]);
      assert false;
    }
  }
}
