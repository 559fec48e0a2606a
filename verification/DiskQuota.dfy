/** Tenant quotas. Disk usage is compared in gigabytes rounded to one decimal place, which the
    model counts in tenths: a sum of tenths and whole gigabytes compares with a whole limit as
    the source's floats do. */
module DiskQuota {
  import opened Text

  datatype Quota = Quota(maxVms: Option<nat>, maxCpu: Option<nat>, maxRam: Option<nat>, maxDiskGb: Option<nat>)

  datatype Vm = Vm(cpu: nat, ram: nat, diskMib: nat)

  datatype Usage = Usage(vms: nat, cpu: nat, ram: nat, diskMib: nat, diskTenths: nat)

  datatype Resource = MaxVms | MaxCpu | MaxRam | MaxDisk

  // ---------------------------------------------------------------- rounding

  /** `round(mib / 1024, 1)` in tenths: to the nearest, a tie to the even one. */
  function RoundTenths(mib: nat): nat {
    NearestTenth(10 * mib / 1024, 10 * mib % 1024)
  }

  function NearestTenth(q: nat, r: nat): nat {
    if r < 512 || (r == 512 && q % 2 == 0) then q else q + 1
  }

  /** The result is a nearest tenth, and the even one of two equally near. */
  ghost predicate IsRounded(mib: nat, k: int) {
    && -512 <= 10 * mib - 1024 * k <= 512
    && ((10 * mib - 1024 * k == 512 || 10 * mib - 1024 * k == -512) ==> k % 2 == 0)
  }

  lemma RoundTenthsIsNearest(mib: nat, k: int)
    ensures IsRounded(mib, k) <==> k == RoundTenths(mib)
  {
    NearestOf(10 * mib, 10 * mib / 1024, 10 * mib % 1024, k);
  }

  lemma NearestOf(n: int, q: int, r: int, k: int)
    requires n == 1024 * q + r && 0 <= r < 1024
    ensures (-512 <= n - 1024 * k <= 512 && ((n - 1024 * k == 512 || n - 1024 * k == -512) ==> k % 2 == 0))
            <==> k == if r < 512 || (r == 512 && q % 2 == 0) then q else q + 1
  {
    if k < q {
      assert n - 1024 * k >= 1024;
    } else if k > q + 1 {
      assert n - 1024 * k <= r - 2048;
    } else if k == q {
      assert n - 1024 * k == r;
    } else {
      assert n - 1024 * k == r - 1024;
    }
  }

  /** Ties do occur (256 MiB is 0.25 GB), but never at a whole number of gigabytes: being over
      a limit is a plain comparison of mebibytes, with 51 MiB of slack. */
  lemma OverLimit(mib: nat, gb: int)
    ensures RoundTenths(mib) > 10 * gb <==> mib > 1024 * gb + 51
  {
    RoundTenthsIsNearest(mib, RoundTenths(mib));
    if gb < 0 {
    } else if mib <= 1024 * gb + 51 {
      assert 10 * mib <= 10240 * gb + 510;
    } else {
      assert 10 * mib >= 10240 * gb + 520;
    }
  }

  lemma WholeGigabytesShift(mib: nat, gb: nat)
    ensures RoundTenths(mib + 1024 * gb) == RoundTenths(mib) + 10 * gb
  {
    var q, r := 10 * mib / 1024, 10 * mib % 1024;
    RoundsAs(mib, q, r);
    RoundsAs(mib + 1024 * gb, q + 10 * gb, r);
    EvenShift(q, 5 * gb);
  }

  lemma RoundsAs(mib: nat, q: nat, r: nat)
    requires 10 * mib == 1024 * q + r && r < 1024
    ensures RoundTenths(mib) == NearestTenth(q, r)
  {
    assert 10 * mib / 1024 == q && 10 * mib % 1024 == r;
  }

  lemma EvenShift(q: nat, d: nat)
    ensures (q + 2 * d) % 2 == q % 2
  {
  }

  // ---------------------------------------------------------------- the checks

  function SumCpu(vms: seq<Vm>): nat { if vms == [] then 0 else vms[0].cpu + SumCpu(vms[1..]) }
  function SumRam(vms: seq<Vm>): nat { if vms == [] then 0 else vms[0].ram + SumRam(vms[1..]) }
  function SumDisk(vms: seq<Vm>): nat { if vms == [] then 0 else vms[0].diskMib + SumDisk(vms[1..]) }

  function CurrentUsage(vms: seq<Vm>): Usage {
    Usage(|vms|, SumCpu(vms), SumRam(vms), SumDisk(vms), RoundTenths(SumDisk(vms)))
  }

  /** `check_vm_quota`: the first limit the request would exceed. */
  function CheckVmQuota(q: Quota, vms: seq<Vm>, cpu: nat, ram: nat, diskGb: nat): Option<Resource> {
    var u := CurrentUsage(vms);
    if q.maxVms.Some? && u.vms + 1 > q.maxVms.value then Some(MaxVms)
    else if q.maxCpu.Some? && u.cpu + cpu > q.maxCpu.value then Some(MaxCpu)
    else if q.maxRam.Some? && u.ram + ram > q.maxRam.value then Some(MaxRam)
    else if q.maxDiskGb.Some? && u.diskTenths + 10 * diskGb > 10 * q.maxDiskGb.value then Some(MaxDisk)
    else None
  }

  /** `check_disk_resize_quota`: whether the growth is refused. */
  function CheckDiskResizeQuota(q: Quota, vms: seq<Vm>, additionalMib: nat): Option<Resource> {
    if q.maxDiskGb.Some? && RoundTenths(SumDisk(vms) + additionalMib) > 10 * q.maxDiskGb.value then Some(MaxDisk)
    else None
  }

  /** Disk usage within a limit, up to the slack the rounding leaves. */
  predicate DiskWithin(limit: Option<nat>, mib: int) {
    limit.Some? ==> mib <= 1024 * limit.value + 51
  }

  predicate Within(q: Quota, vms: seq<Vm>) {
    && (q.maxVms.Some? ==> |vms| <= q.maxVms.value)
    && (q.maxCpu.Some? ==> SumCpu(vms) <= q.maxCpu.value)
    && (q.maxRam.Some? ==> SumRam(vms) <= q.maxRam.value)
    && DiskWithin(q.maxDiskGb, SumDisk(vms))
  }

  lemma {:induction false} SumsOfAppend(vms: seq<Vm>, vm: Vm)
    ensures SumCpu(vms + [vm]) == SumCpu(vms) + vm.cpu
    ensures SumRam(vms + [vm]) == SumRam(vms) + vm.ram
    ensures SumDisk(vms + [vm]) == SumDisk(vms) + vm.diskMib
  {
    if vms == [] {
      assert vms + [vm] == [vm] && [vm][1..] == [];
    } else {
      assert (vms + [vm])[1..] == vms[1..] + [vm];
      SumsOfAppend(vms[1..], vm);
    }
  }

  /** A VM with an explicit disk size is admitted if and only if the tenant is then within
      every limit, given that it was within the others before. */
  lemma ProvisionExactly(q: Quota, vms: seq<Vm>, cpu: nat, ram: nat, diskGb: nat)
    ensures CheckVmQuota(q, vms, cpu, ram, diskGb).None? <==> Within(q, vms + [Vm(cpu, ram, 1024 * diskGb)])
  {
    var vm := Vm(cpu, ram, 1024 * diskGb);
    SumsOfAppend(vms, vm);
    WholeGigabytesShift(SumDisk(vms), diskGb);
    if q.maxDiskGb.Some? {
      OverLimit(SumDisk(vms + [vm]), q.maxDiskGb.value);
    }
  }

  /** What the first VM of a tenant may take, limit by limit. */
  lemma FirstVmExactly(q: Quota, cpu: nat, ram: nat, diskGb: nat)
    ensures CheckVmQuota(q, [], cpu, ram, diskGb).None? <==>
              && q.maxVms != Some(0) && (q.maxCpu.Some? ==> cpu <= q.maxCpu.value)
              && (q.maxRam.Some? ==> ram <= q.maxRam.value) && (q.maxDiskGb.Some? ==> diskGb <= q.maxDiskGb.value)
  {
  }

  /** A resize is accepted if and only if the new total fits the same bound. */
  lemma ResizeExactly(q: Quota, vms: seq<Vm>, additionalMib: nat)
    ensures CheckDiskResizeQuota(q, vms, additionalMib).None? <==> DiskWithin(q.maxDiskGb, SumDisk(vms) + additionalMib)
  {
    if q.maxDiskGb.Some? {
      OverLimit(SumDisk(vms) + additionalMib, q.maxDiskGb.value);
    }
  }

  /** The slack is reachable: a tenant may use 51 MiB more than its limit, and no more. */
  lemma SlackIsReached(gb: nat)
    ensures var q := Quota(None, None, None, Some(gb));
            && CheckDiskResizeQuota(q, [], 1024 * gb + 51) == None
            && CheckDiskResizeQuota(q, [], 1024 * gb + 52) == Some(MaxDisk)
  {
    OverLimit(1024 * gb + 51, gb);
    OverLimit(1024 * gb + 52, gb);
  }

  // ---------------------------------------------------------------- runs

  /** The resize handler records the grown disk's own new size as the VM's. */
  function Resized(vms: seq<Vm>, i: nat, diskMib: nat): seq<Vm>
    requires i < |vms|
  {
    vms[i := vms[i].(diskMib := diskMib)]
  }

  lemma {:induction false} SumsOfUpdate(vms: seq<Vm>, i: nat, diskMib: nat)
    requires i < |vms|
    ensures SumDisk(Resized(vms, i, diskMib)) == SumDisk(vms) - vms[i].diskMib + diskMib
    ensures SumCpu(Resized(vms, i, diskMib)) == SumCpu(vms) && SumRam(Resized(vms, i, diskMib)) == SumRam(vms)
  {
    if i == 0 {
      assert Resized(vms, 0, diskMib)[1..] == vms[1..];
    } else {
      assert Resized(vms, i, diskMib)[1..] == Resized(vms[1..], i - 1, diskMib);
      SumsOfUpdate(vms[1..], i - 1, diskMib);
    }
  }

  lemma {:induction false} SumsOfRemoval(vms: seq<Vm>, i: nat)
    requires i < |vms|
    ensures SumDisk(vms[..i] + vms[i + 1..]) == SumDisk(vms) - vms[i].diskMib
    ensures SumCpu(vms[..i] + vms[i + 1..]) == SumCpu(vms) - vms[i].cpu
    ensures SumRam(vms[..i] + vms[i + 1..]) == SumRam(vms) - vms[i].ram
  {
    if i == 0 {
      assert vms[..0] + vms[1..] == vms[1..];
    } else {
      var rest := vms[1..];
      assert (vms[..i] + vms[i + 1..])[1..] == rest[..i - 1] + rest[i..];
      assert (vms[..i] + vms[i + 1..])[0] == vms[0];
      SumsOfRemoval(rest, i - 1);
    }
  }

  /** One step. `before` is the size the hypervisor reports for the disk about to grow. */
  datatype Step =
    | Provision(cpu: nat, ram: nat, diskGb: nat)
    | Resize(i: nat, before: nat, additionalMib: nat)
    | Remove(i: nat)

  ghost predicate Next(q: Quota, vms: seq<Vm>, s: Step, vms': seq<Vm>) {
    match s
    case Provision(cpu, ram, diskGb) =>
      CheckVmQuota(q, vms, cpu, ram, diskGb).None? && vms' == vms + [Vm(cpu, ram, 1024 * diskGb)]
    case Resize(i, before, additionalMib) =>
      i < |vms| && CheckDiskResizeQuota(q, vms, additionalMib).None? && vms' == Resized(vms, i, before + additionalMib)
    case Remove(i) =>
      i < |vms| && vms' == vms[..i] + vms[i + 1..]
  }

  /** The disk that grows is no larger than what is recorded for its VM. */
  predicate RecordsGrowth(vms: seq<Vm>, s: Step) {
    s.Resize? && s.i < |vms| ==> s.before <= vms[s.i].diskMib
  }

  /** What a step adds to a total that counts `size` for a new VM, `grown` for a resize and takes
      `gone` for a removal. */
  function Change(s: Step, size: int, grown: int, gone: int): int {
    match s
    case Provision(_, _, _) => size
    case Resize(_, _, _) => grown
    case Remove(_) => -gone
  }

  /** Every step changes the totals by what it brings or takes, and nothing else. */
  lemma TotalsFollow(q: Quota, vms: seq<Vm>, s: Step, vms': seq<Vm>, vm: Vm)
    requires Next(q, vms, s, vms')
    requires !s.Provision? ==> 0 <= s.i < |vms| && vm == vms[s.i]
    ensures |vms'| == |vms| + Change(s, 1, 0, 1)
    ensures SumCpu(vms') == SumCpu(vms) + Change(s, if s.Provision? then s.cpu else 0, 0, vm.cpu)
    ensures SumRam(vms') == SumRam(vms) + Change(s, if s.Provision? then s.ram else 0, 0, vm.ram)
    ensures SumDisk(vms') == SumDisk(vms) + Change(s, if s.Provision? then 1024 * s.diskGb else 0,
                                                  if s.Resize? then s.before + s.additionalMib - vm.diskMib else 0,
                                                  vm.diskMib)
  {
    hide CheckVmQuota, CheckDiskResizeQuota, SumCpu, SumRam, SumDisk;
    match s
    case Provision(cpu, ram, diskGb) => SumsOfAppend(vms, Vm(cpu, ram, 1024 * diskGb));
    case Resize(i, before, additionalMib) => SumsOfUpdate(vms, i, before + additionalMib);
    case Remove(i) => SumsOfRemoval(vms, i);
  }

  lemma NextKeepsWithin(q: Quota, vms: seq<Vm>, s: Step, vms': seq<Vm>)
    requires Within(q, vms) && Next(q, vms, s, vms') && RecordsGrowth(vms, s)
    ensures Within(q, vms')
  {
    match s
    case Provision(cpu, ram, diskGb) => ProvisionExactly(q, vms, cpu, ram, diskGb);
    case Resize(i, before, additionalMib) =>
      ResizeExactly(q, vms, additionalMib);
      SumsOfUpdate(vms, i, before + additionalMib);
    case Remove(i) => SumsOfRemoval(vms, i);
  }

  /** Over any sequential run at constant quota usage never passes the limits: whatever the
      number of roundings, the excess stays below 52 MiB. */
  lemma {:induction false} RoundingDoesNotAccumulate(q: Quota, states: seq<seq<Vm>>, steps: seq<Step>)
    requires |states| == |steps| + 1 && Within(q, states[0])
    requires forall i :: 0 <= i < |steps| ==> Next(q, states[i], steps[i], states[i + 1])
    requires forall i :: 0 <= i < |steps| ==> RecordsGrowth(states[i], steps[i])
    ensures forall i :: 0 <= i < |states| ==> Within(q, states[i])
  {
    for i := 0 to |steps|
      invariant forall j :: 0 <= j <= i ==> Within(q, states[j])
    {
      NextKeepsWithin(q, states[i], steps[i], states[i + 1]);
    }
  }

  /** What a limit still allows after the total has grown to `mib`. */
  function Headroom(limitGb: nat, mib: int): int {
    1024 * limitGb + 51 - mib
  }

  /** Acceptance only makes sure that the headroom is not negative. The tenant is within the bound
      afterwards if and only if the part of the disk that its VM's record did not know fits into
      that headroom. */
  lemma AcceptedResizeFits(q: Quota, vms: seq<Vm>, i: nat, before: nat, additionalMib: nat)
    requires i < |vms| && q.maxDiskGb.Some? && CheckDiskResizeQuota(q, vms, additionalMib).None?
    ensures var headroom := Headroom(q.maxDiskGb.value, SumDisk(vms) + additionalMib);
            && headroom >= 0
            && (DiskWithin(q.maxDiskGb, SumDisk(Resized(vms, i, before + additionalMib)))
                <==> before - vms[i].diskMib <= headroom)
  {
    ResizeExactly(q, vms, additionalMib);
    SumsOfUpdate(vms, i, before + additionalMib);
  }

  /** A second disk the record does not know: growing a 500 GB disk of a VM recorded with 10 GB
      by 1 GB passes a 20 GB quota and records 501 GB. */
  lemma SecondDiskPassesQuota()
    ensures var q, vms := Quota(None, None, None, Some(20)), [Vm(1, 1, 10 * 1024)];
            var after := Resized(vms, 0, 501 * 1024);
            Within(q, vms) && Next(q, vms, Resize(0, 500 * 1024, 1024), after) && !Within(q, after)
  {
    var q, vms := Quota(None, None, None, Some(20)), [Vm(1, 1, 10 * 1024)];
    var after := Resized(vms, 0, 501 * 1024);
    assert vms[1..] == [] && after[1..] == [];
    assert SumDisk(vms) == 10 * 1024;
    assert SumDisk(after) == 501 * 1024;
    ResizeExactly(q, vms, 1024);
  }
}
