/** The reconciler: audit of VM rows against the containers of a provider, and the repair that
    follows it. */
module Convergence {
  import opened RuleOrder

  type Statuses = map<string, string>

  /** Each list names its members once, in some order. */
  ghost predicate Lists(s: seq<string>, members: set<string>) {
    Distinct(s) && Elements(s) == members
  }

  datatype Report = Report(orphans: seq<string>, ghosts: seq<string>, drift: seq<string>, synced: seq<string>)

  predicate Running(status: string) { status == "running" }

  /** VM names are unique, so rows are keyed by name. */
  function Orphans(seen: Statuses, rows: Statuses): set<string> { seen.Keys - rows.Keys }
  function Ghosts(seen: Statuses, rows: Statuses): set<string> { rows.Keys - seen.Keys }

  function Drift(seen: Statuses, rows: Statuses): set<string> {
    set n | n in rows && n in seen && Running(rows[n]) != Running(seen[n])
  }

  function Synced(seen: Statuses, rows: Statuses): set<string> {
    set n | n in rows && n in seen && Running(rows[n]) == Running(seen[n])
  }

  ghost predicate IsAudit(r: Report, seen: Statuses, rows: Statuses) {
    && Lists(r.orphans, Orphans(seen, rows)) && Lists(r.ghosts, Ghosts(seen, rows))
    && Lists(r.drift, Drift(seen, rows)) && Lists(r.synced, Synced(seen, rows))
  }

  lemma ListPush(s: seq<string>, members: set<string>, x: string)
    requires Lists(s, members) && x !in members
    ensures Lists(s + [x], members + {x})
  {
    forall y
      ensures y in s + [x] <==> y in members + {x}
    {
      assert y in s <==> y in Elements(s);
    }
    forall i, j | 0 <= i < j < |s| + 1
      ensures (s + [x])[i] != (s + [x])[j]
    {
      if j == |s| {
        assert s[i] in Elements(s);
      }
    }
  }

  /** Moving `n` out of the names still to do extends the list of its class, or changes nothing. */
  lemma ListStep(s: seq<string>, kind: set<string>, todo: set<string>, n: string)
    requires Lists(s, kind - todo) && n in todo
    ensures Lists(if n in kind then s + [n] else s, kind - (todo - {n}))
  {
    if n in kind {
      ListPush(s, kind - todo, n);
      assert kind - (todo - {n}) == kind - todo + {n};
    } else {
      assert kind - (todo - {n}) == kind - todo;
    }
  }

  lemma {:induction false} ListLength(s: seq<string>, members: set<string>)
    requires Lists(s, members)
    ensures |s| == |members|
  {
    if s != [] {
      var last, front := s[|s| - 1], s[..|s| - 1];
      forall x
        ensures x in front <==> x in members - {last}
      {
        assert x in s <==> x in Elements(s);
        assert s == front + [last];
      }
      assert last in s;
      ListLength(front, members - {last});
    }
  }

  /** An audit puts every row in exactly one of its three lists and every container in exactly
      one of orphan and matched. */
  lemma AuditPartitions(r: Report, seen: Statuses, rows: Statuses)
    requires IsAudit(r, seen, rows)
    ensures |r.ghosts| + |r.drift| + |r.synced| == |rows|
    ensures forall n :: n in rows ==>
              (n in r.ghosts) != (n in r.drift || n in r.synced) && !(n in r.drift && n in r.synced)
    ensures forall n :: n in seen ==> (n in r.orphans) != (n in r.drift || n in r.synced)
  {
    var g, d, s := Ghosts(seen, rows), Drift(seen, rows), Synced(seen, rows);
    RowClasses(seen, rows);
    ListLength(r.ghosts, g);
    ListLength(r.drift, d);
    ListLength(r.synced, s);
    forall n
      ensures (n in r.ghosts <==> n in g) && (n in r.drift <==> n in d) && (n in r.synced <==> n in s)
      ensures n in r.orphans <==> n in Orphans(seen, rows)
    {
      assert n in Elements(r.ghosts) <==> n in r.ghosts;
      assert n in Elements(r.drift) <==> n in r.drift;
      assert n in Elements(r.synced) <==> n in r.synced;
      assert n in Elements(r.orphans) <==> n in r.orphans;
    }
  }

  /** The four classes, name by name. */
  ghost predicate ByName(r: Report, seen: Statuses, rows: Statuses) {
    && (forall n :: n in r.orphans <==> n in seen && n !in rows)
    && (forall n :: n in r.ghosts <==> n in rows && n !in seen)
    && (forall n :: n in r.drift <==> n in rows && n in seen && ((rows[n] == "running") != (seen[n] == "running")))
    && (forall n :: n in r.synced <==> n in rows && n in seen && (rows[n] == "running" <==> seen[n] == "running"))
  }

  lemma AuditByName(r: Report, seen: Statuses, rows: Statuses)
    requires IsAudit(r, seen, rows)
    ensures ByName(r, seen, rows)
  {
    forall n
      ensures n in Elements(r.orphans) <==> n in r.orphans
      ensures n in Elements(r.ghosts) <==> n in r.ghosts
      ensures n in Elements(r.drift) <==> n in r.drift
      ensures n in Elements(r.synced) <==> n in r.synced
    {
    }
  }

  lemma RowClasses(seen: Statuses, rows: Statuses)
    ensures |Ghosts(seen, rows)| + |Drift(seen, rows)| + |Synced(seen, rows)| == |rows|
  {
    var g, d, s := Ghosts(seen, rows), Drift(seen, rows), Synced(seen, rows);
    ThreeParts(rows.Keys, g, d, s);
    assert |rows| == |rows.Keys|;
  }

  lemma ThreeParts<T>(all: set<T>, a: set<T>, b: set<T>, c: set<T>)
    requires forall x :: x in all <==> x in a || x in b || x in c
    requires a !! b && a !! c && b !! c
    ensures |a| + |b| + |c| == |all|
  {
    assert all == a + b + c;
    assert |a + b| == |a| + |b|;
    assert |a + b + c| == |a + b| + |c|;
  }

  // ---------------------------------------------------------------- the repair

  /** The rows after a repair: ghosts deleted, drift set to what was seen. */
  function Repaired(seen: Statuses, rows: Statuses): Statuses {
    map n | n in rows && n in seen :: if Running(rows[n]) != Running(seen[n]) then seen[n] else rows[n]
  }

  /** The containers after the orphans were removed, save those whose removal failed. */
  function Pruned(containers: Statuses, seen: Statuses, rows: Statuses, stuck: set<string>): Statuses {
    containers - (Orphans(seen, rows) - stuck)
  }

  /** A repair that saw the real containers leaves nothing to repair but the removals that
      failed, and a second one with the same failures changes nothing. */
  lemma RepairConverges(containers: Statuses, rows: Statuses, stuck: set<string>)
    ensures var rows', containers' := Repaired(containers, rows), Pruned(containers, containers, rows, stuck);
            && Ghosts(containers', rows') == {} && Drift(containers', rows') == {}
            && Synced(containers', rows') == rows'.Keys
            && Orphans(containers', rows') == Orphans(containers, rows) * stuck
            && Repaired(containers', rows') == rows'
            && Pruned(containers', containers', rows', stuck) == containers'
  {
    var rows', containers' := Repaired(containers, rows), Pruned(containers, containers, rows, stuck);
    assert Orphans(containers', rows') == Orphans(containers, rows) * stuck;
  }

  /** What the provider does: whether it can be reached for the listing and for the repair, and
      which removals it refuses. */
  datatype Provider = Provider(lists: bool, reachable: bool, stuck: set<string>)

  datatype Site = Site(rows: Statuses, containers: Statuses)

  /** One reconcile of a provider. A failed listing reads as an empty one. */
  function Reconciled(s: Site, p: Provider): Site {
    if !p.reachable then s
    else
      var seen := if p.lists then s.containers else map[];
      Site(Repaired(seen, s.rows), Pruned(s.containers, seen, s.rows, p.stuck))
  }

  /** Rows with a container stay and run exactly when it does; containers with a row stay, and of
      the others those whose removal failed. */
  ghost predicate Agrees(s: Site, stuck: set<string>, s': Site) {
    && s'.rows.Keys == s.rows.Keys * s.containers.Keys
    && (forall n :: n in s'.rows ==>
          && (s'.rows[n] == "running" <==> s.containers[n] == "running")
          && s'.rows[n] in {s.rows[n], s.containers[n]})
    && s'.containers.Keys == s.rows.Keys * s.containers.Keys + s.containers.Keys * stuck
    && forall n :: n in s'.containers ==> s'.containers[n] == s.containers[n]
  }

  lemma ReconciledAgrees(s: Site, p: Provider)
    requires p.reachable && p.lists
    ensures Agrees(s, p.stuck, Reconciled(s, p))
  {
  }

  function ReconciledAll(s: Site, ps: seq<Provider>): Site {
    if ps == [] then s else Reconciled(ReconciledAll(s, ps[..|ps| - 1]), ps[|ps| - 1])
  }

  /** The provider answers the repair but not the listing. */
  predicate Blind(p: Provider) {
    p.reachable && !p.lists
  }

  lemma OneReconcile(s: Site, p: Provider)
    requires s.rows.Keys <= s.containers.Keys
    ensures var t := Reconciled(s, p);
            t.rows.Keys == (if Blind(p) then {} else s.rows.Keys) && t.rows.Keys <= t.containers.Keys
  {
  }

  /** Over any run of reconciles of rows that all have their container, the rows survive if and
      only if no reconcile was blind; a single blind one deletes them all, for good. */
  lemma {:induction false} RowsSurviveRun(s: Site, ps: seq<Provider>)
    requires s.rows.Keys <= s.containers.Keys
    ensures var t := ReconciledAll(s, ps);
            && t.rows.Keys == (if exists p :: p in ps && Blind(p) then {} else s.rows.Keys)
            && t.rows.Keys <= t.containers.Keys
  {
    if ps != [] {
      var front, last := ps[..|ps| - 1], ps[|ps| - 1];
      assert ps == front + [last];
      assert forall p :: p in ps <==> p in front || p == last;
      RowsSurviveRun(s, front);
      OneReconcile(ReconciledAll(s, front), last);
    }
  }

  /** And after a blind reconcile the next one that lists takes every container it can remove for
      an orphan. */
  lemma BlindReconcileLosesEverything(s: Site, blind: Provider, next: Provider)
    requires Blind(blind) && next.lists && next.reachable
    ensures var t := ReconciledAll(s, [blind, next]);
            t.rows == map[] && t.containers.Keys == s.containers.Keys * next.stuck
  {
    assert [blind, next][..1] == [blind] && [blind][..0] == [];
    assert ReconciledAll(s, [blind]) == Site(map[], s.containers);
  }

  datatype Repair = Repair(purgedOrphans: seq<string>, purgedGhosts: seq<string>, corrected: seq<string>)

  class Reconciler {
    var rows: Statuses
    var containers: Statuses

    function Seen(p: Provider): Statuses
      reads this
    {
      if p.lists then containers else map[]
    }

    method GetContainerStatus(p: Provider) returns (seen: Statuses)
      ensures seen == Seen(p)
    {
      seen := map[];
      if p.lists {
        var todo := containers.Keys;
        while todo != {}
          invariant todo <= containers.Keys && seen == map n | n in containers && n !in todo :: containers[n]
          decreases |todo|
        {
          var n :| n in todo;
          todo := todo - {n};
          seen := seen[n := containers[n]];
        }
      }
    }

    /** Also hands back the statuses it saw, which the drift entries carry. */
    method AuditSingleProvider(p: Provider) returns (r: Report, seen: Statuses)
      ensures seen == Seen(p) && IsAudit(r, seen, rows)
      ensures ByName(r, seen, rows)
    {
      seen := GetContainerStatus(p);
      var orphans := FindOrphans(seen);
      r := ClassifyRows(seen);
      r := r.(orphans := orphans);
      AuditByName(r, seen, rows);
    }

    method FindOrphans(seen: Statuses) returns (orphans: seq<string>)
      ensures Lists(orphans, Orphans(seen, rows))
    {
      orphans := [];
      var todo := seen.Keys;
      while todo != {}
        invariant todo <= seen.Keys && Lists(orphans, Orphans(seen, rows) - todo)
        decreases |todo|
      {
        var n :| n in todo;
        ListStep(orphans, Orphans(seen, rows), todo, n);
        todo := todo - {n};
        if n !in rows {
          orphans := orphans + [n];
        }
      }
      assert Orphans(seen, rows) - todo == Orphans(seen, rows);
    }

    method ClassifyRows(seen: Statuses) returns (r: Report)
      ensures Lists(r.ghosts, Ghosts(seen, rows)) && Lists(r.drift, Drift(seen, rows))
      ensures Lists(r.synced, Synced(seen, rows))
    {
      var ghosts, drift, synced := [], [], [];
      var todo := rows.Keys;
      ghost var g, d, s := Ghosts(seen, rows), Drift(seen, rows), Synced(seen, rows);
      while todo != {}
        invariant todo <= rows.Keys
        invariant Lists(ghosts, g - todo) && Lists(drift, d - todo) && Lists(synced, s - todo)
        decreases |todo|
      {
        var n :| n in todo;
        ListStep(ghosts, g, todo, n);
        ListStep(drift, d, todo, n);
        ListStep(synced, s, todo, n);
        todo := todo - {n};
        if n in seen {
          if Running(rows[n]) != Running(seen[n]) {
            drift := drift + [n];
          } else {
            synced := synced + [n];
          }
        } else {
          ghosts := ghosts + [n];
        }
      }
      assert g - todo == g && d - todo == d && s - todo == s;
      r := Report([], ghosts, drift, synced);
    }

    /** `_reconcile_single_provider`: nothing is repaired when the provider cannot be reached;
        otherwise the rows and containers are repaired after what the audit saw, and the result
        lists what was done. */
    method ReconcileSingleProvider(p: Provider) returns (done: Repair)
      modifies this
      ensures !p.reachable ==> done == Repair([], [], [])
      ensures Site(rows, containers) == Reconciled(old(Site(rows, containers)), p)
      ensures p.reachable && p.lists ==> Agrees(old(Site(rows, containers)), p.stuck, Site(rows, containers))
      ensures p.reachable ==>
                && Lists(done.purgedOrphans, Orphans(old(Seen(p)), old(rows)) - p.stuck)
                && Lists(done.purgedGhosts, Ghosts(old(Seen(p)), old(rows)))
                && Lists(done.corrected, Drift(old(Seen(p)), old(rows)))
    {
      var report, seen := AuditSingleProvider(p);
      if !p.reachable {
        return Repair([], [], []);
      }
      hide Agrees, ByName, Distinct;
      ghost var was := rows;
      var purged := PurgeOrphans(report.orphans, p.stuck);
      DeleteGhosts(report.ghosts);
      assert forall n :: n in report.drift ==> n in Elements(report.drift);
      assert forall n :: n in Drift(seen, was) ==> n in report.drift;
      CorrectDrift(report.drift, seen);
      assert rows == Repaired(seen, was);
      done := Repair(purged, report.ghosts, report.drift);
      if p.lists {
        ReconciledAgrees(old(Site(rows, containers)), p);
      }
    }

    method PurgeOrphans(orphans: seq<string>, stuck: set<string>) returns (purged: seq<string>)
      requires Distinct(orphans)
      modifies `containers
      ensures containers == old(containers) - (Elements(orphans) - stuck)
      ensures Lists(purged, Elements(orphans) - stuck)
    {
      purged := [];
      for i := 0 to |orphans|
        invariant containers == old(containers) - (Elements(orphans[..i]) - stuck)
        invariant Lists(purged, Elements(orphans[..i]) - stuck)
      {
        var n := orphans[i];
        ghost var past := Elements(orphans[..i]);
        assert orphans[..i + 1] == orphans[..i] + [n];
        assert Elements(orphans[..i + 1]) == past + {n};
        assert n !in past;
        if n !in stuck {
          containers := containers - {n};
          ListPush(purged, past - stuck, n);
          purged := purged + [n];
          assert past + {n} - stuck == past - stuck + {n};
        } else {
          assert past + {n} - stuck == past - stuck;
        }
      }
      assert orphans[..|orphans|] == orphans;
    }

    method DeleteGhosts(ghosts: seq<string>)
      modifies `rows
      ensures rows == old(rows) - Elements(ghosts)
    {
      for i := 0 to |ghosts|
        invariant rows == old(rows) - Elements(ghosts[..i])
      {
        assert ghosts[..i + 1] == ghosts[..i] + [ghosts[i]];
        rows := rows - {ghosts[i]};
      }
      assert ghosts[..|ghosts|] == ghosts;
    }

    method CorrectDrift(drift: seq<string>, seen: Statuses)
      requires forall n :: n in drift ==> n in seen && n in rows
      modifies `rows
      ensures rows == map n | n in old(rows) :: if n in drift then seen[n] else old(rows)[n]
    {
      for i := 0 to |drift|
        invariant rows == map n | n in old(rows) :: if n in drift[..i] then seen[n] else old(rows)[n]
      {
        assert drift[..i + 1] == drift[..i] + [drift[i]];
        if drift[i] in rows {
          rows := rows[drift[i] := seen[drift[i]]];
        }
      }
      assert drift[..|drift|] == drift;
    }
  }
}
