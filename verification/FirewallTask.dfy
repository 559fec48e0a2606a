/** The loops of `apply_all_pending_rules_task`, in the order the task runs them. */
module FirewallTask {
  import opened Text
  import opened RuleRecord
  import opened RuleOrder
  import opened FirewallModel
  import opened FirewallApply

  // ---------------------------------------------------------------- the body of each push loop

  /** One iteration of the delete loop. */
  method PushDelete(db: RuleTable, fw: Firewall, calls: Calls, id: RowId, ghost done: set<RowId>,
                    ghost rows0: map<RowId, Row>, ghost staged0: Ruleset, ghost issued0: set<Uuid>) returns (ok: bool)
    requires fw.Valid() && Ready(rows0, staged0, issued0, calls)
    requires Progress(rows0, staged0, calls, done, [], db.rows, fw.staged)
    requires id !in done && id in rows0 && rows0[id].status.PendingDelete?
    modifies db`rows, fw`staged
    ensures fw.Valid() && Progress(rows0, staged0, calls, done + {id}, [], db.rows, fw.staged)
    ensures ok == PushOk(staged0.rules.Keys, calls, id, rows0[id])
  {
    StepRow(rows0, staged0, calls, done, [], db.rows, fw.staged, id);
    var rule := db.rows[id];
    ghost var staged := fw.staged;
    if IsPlaceholder(rule.uuid) {
      StepForgotten(rows0, staged0, issued0, calls, done, [], db.rows, staged, id);
      return true;
    }
    StillKnown(rows0, staged0, issued0, calls, done, [], db.rows, staged, id);
    ok := fw.DelRule(rule.uuid, id in calls.failing);
    if ok {
      StepDeleted(rows0, staged0, issued0, calls, done, [], db.rows, staged, id);
    } else {
      StepFailed(rows0, staged0, calls, done, [], db.rows, staged, id);
      db.rows := db.rows[id := rule.(status := Failed, error := ErrorOf(calls, id))];
    }
  }

  /** One iteration of the update loop. */
  method PushUpdate(db: RuleTable, fw: Firewall, calls: Calls, id: RowId, ghost done: set<RowId>,
                    ghost rows0: map<RowId, Row>, ghost staged0: Ruleset, ghost issued0: set<Uuid>) returns (ok: bool)
    requires fw.Valid() && Ready(rows0, staged0, issued0, calls)
    requires Progress(rows0, staged0, calls, done, [], db.rows, fw.staged)
    requires id !in done && id in rows0 && rows0[id].status.Pending? && !IsPlaceholder(rows0[id].uuid)
    modifies db`rows, fw`staged
    ensures fw.Valid() && Progress(rows0, staged0, calls, done + {id}, [], db.rows, fw.staged)
    ensures ok == PushOk(staged0.rules.Keys, calls, id, rows0[id])
  {
    StepRow(rows0, staged0, calls, done, [], db.rows, fw.staged, id);
    StillKnown(rows0, staged0, issued0, calls, done, [], db.rows, fw.staged, id);
    var rule := db.rows[id];
    ghost var staged := fw.staged;
    ok := fw.SetRule(rule.uuid, Payload(rule.fields), id in calls.failing);
    if ok {
      StepUpdated(rows0, staged0, issued0, calls, done, [], db.rows, staged, id);
      db.rows := db.rows[id := rule.(status := Synced, error := None, syncedAt := Some(calls.now))];
    } else {
      StepFailed(rows0, staged0, calls, done, [], db.rows, staged, id);
      db.rows := db.rows[id := rule.(status := Failed, error := ErrorOf(calls, id))];
    }
  }

  /** One iteration of the create loop. */
  method PushCreate(db: RuleTable, fw: Firewall, calls: Calls, id: RowId, ghost done: set<RowId>,
                    ghost rows0: map<RowId, Row>, ghost staged0: Ruleset, ghost issued0: set<Uuid>,
                    ghost created: seq<Uuid>) returns (ok: bool)
    requires fw.Valid() && Ready(rows0, staged0, issued0, calls)
    requires Progress(rows0, staged0, calls, done, created, db.rows, fw.staged)
    requires id !in done && id in rows0 && IsCreate(rows0[id]) && AssignedUuid(calls, id) !in fw.issued
    modifies db`rows, fw`staged, fw`issued
    ensures fw.Valid()
    ensures Progress(rows0, staged0, calls, done + {id}, if ok then created + [AssignedUuid(calls, id)] else created,
                     db.rows, fw.staged)
    ensures fw.issued == old(fw.issued) + if ok then {AssignedUuid(calls, id)} else {}
    ensures ok == PushOk(staged0.rules.Keys, calls, id, rows0[id])
  {
    StepRow(rows0, staged0, calls, done, created, db.rows, fw.staged, id);
    var rule := db.rows[id];
    ghost var staged := fw.staged;
    ok := fw.AddRule(Payload(rule.fields), AssignedUuid(calls, id), id in calls.failing);
    if ok {
      StepCreated(rows0, staged0, issued0, calls, done, created, db.rows, staged, id);
      db.rows := db.rows[id := rule.(uuid := AssignedUuid(calls, id), status := Synced, error := None,
                                     syncedAt := Some(calls.now))];
    } else {
      StepFailed(rows0, staged0, calls, done, created, db.rows, staged, id);
      db.rows := db.rows[id := rule.(status := Failed, error := ErrorOf(calls, id))];
    }
  }

  // ---------------------------------------------------------------- the push loops

  /** The uuids the appliance has issued once the rows `ids` are pushed. */
  ghost function IssuedAfter(rows: map<RowId, Row>, known: set<Uuid>, issued: set<Uuid>, calls: Calls,
                             ids: set<RowId>): set<Uuid> {
    issued + set id | id in Effective(rows, known, calls, ids) && IsCreate(rows[id]) :: AssignedUuid(calls, id)
  }

  lemma IssuedStep(rows: map<RowId, Row>, known: set<Uuid>, issued: set<Uuid>, calls: Calls, ids: set<RowId>, id: RowId)
    requires FreshUuids(rows, issued, calls) && id in rows && id !in ids && IsCreate(rows[id])
    ensures AssignedUuid(calls, id) !in IssuedAfter(rows, known, issued, calls, ids)
    ensures IssuedAfter(rows, known, issued, calls, ids + {id}) == IssuedAfter(rows, known, issued, calls, ids)
              + if PushOk(known, calls, id, rows[id]) then {AssignedUuid(calls, id)} else {}
  {
    EffectiveStep(rows, known, calls, ids, id);
  }

  /** The counters of a loop that has pushed `ids`. */
  ghost predicate Tally(rows: map<RowId, Row>, known: set<Uuid>, calls: Calls, ids: set<RowId>, applied: nat,
                        failed: nat) {
    applied == |Effective(rows, known, calls, ids)| && applied + failed == |ids|
  }

  lemma LoopStep(rows: map<RowId, Row>, known: set<Uuid>, calls: Calls, done: set<RowId>, ids: seq<RowId>, i: nat,
                 applied: nat, failed: nat)
    requires Distinct(ids) && i < |ids| && ids[i] in rows && Picked(rows[ids[i]])
    requires Elements(ids) !! done
    requires Tally(rows, known, calls, Elements(ids[..i]), applied, failed)
    ensures Elements(ids[..i + 1]) == Elements(ids[..i]) + {ids[i]}
    ensures ids[i] !in done + Elements(ids[..i])
    ensures done + Elements(ids[..i + 1]) == done + Elements(ids[..i]) + {ids[i]}
    ensures var ok := PushOk(known, calls, ids[i], rows[ids[i]]);
            Tally(rows, known, calls, Elements(ids[..i + 1]), if ok then applied + 1 else applied,
                  if ok then failed else failed + 1)
  {
    PrefixStep(ids, i);
    assert ids[i] in Elements(ids);
    EffectiveCount(rows, known, calls, Elements(ids[..i]), ids[i]);
  }

  lemma LoopStart(rows: map<RowId, Row>, known: set<Uuid>, issued: set<Uuid>, calls: Calls)
    ensures Tally(rows, known, calls, {}, 0, 0)
    ensures Created(rows, known, calls, []) == [] && IssuedAfter(rows, known, issued, calls, {}) == issued
  {
    assert Effective(rows, known, calls, {}) == {};
  }

  lemma CreatedStep(rows: map<RowId, Row>, known: set<Uuid>, calls: Calls, ids: seq<RowId>, id: RowId)
    ensures Created(rows, known, calls, ids + [id])
            == if id in rows && IsCreate(rows[id]) && PushOk(known, calls, id, rows[id])
               then Created(rows, known, calls, ids) + [AssignedUuid(calls, id)] else Created(rows, known, calls, ids)
  {
    assert (ids + [id])[..|ids|] == ids;
  }

  method PushDeletes(db: RuleTable, fw: Firewall, calls: Calls, ids: seq<RowId>, ghost done: set<RowId>,
                     ghost rows0: map<RowId, Row>, ghost staged0: Ruleset, ghost issued0: set<Uuid>)
      returns (applied: nat, failed: nat)
    requires fw.Valid() && Ready(rows0, staged0, issued0, calls)
    requires Progress(rows0, staged0, calls, done, [], db.rows, fw.staged)
    requires Distinct(ids) && Elements(ids) !! done
    requires forall id :: id in ids ==> id in rows0 && rows0[id].status.PendingDelete?
    modifies db`rows, fw`staged
    ensures fw.Valid() && Progress(rows0, staged0, calls, done + Elements(ids), [], db.rows, fw.staged)
    ensures Tally(rows0, staged0.rules.Keys, calls, Elements(ids), applied, failed)
  {
    hide Progress, Tally;
    LoopStart(rows0, staged0.rules.Keys, issued0, calls);
    applied, failed := 0, 0;
    assert ids[..0] == [] && Elements(ids[..0]) == {} && done + Elements(ids[..0]) == done;
    for i := 0 to |ids|
      invariant fw.Valid()
      invariant Progress(rows0, staged0, calls, done + Elements(ids[..i]), [], db.rows, fw.staged)
      invariant Tally(rows0, staged0.rules.Keys, calls, Elements(ids[..i]), applied, failed)
    {
      var id := ids[i];
      LoopStep(rows0, staged0.rules.Keys, calls, done, ids, i, applied, failed);
      var ok := PushDelete(db, fw, calls, id, done + Elements(ids[..i]), rows0, staged0, issued0);
      applied, failed := if ok then applied + 1 else applied, if ok then failed else failed + 1;
    }
    assert ids[..|ids|] == ids;
  }

  method PushUpdates(db: RuleTable, fw: Firewall, calls: Calls, ids: seq<RowId>, ghost done: set<RowId>,
                     ghost rows0: map<RowId, Row>, ghost staged0: Ruleset, ghost issued0: set<Uuid>)
      returns (applied: nat, failed: nat)
    requires fw.Valid() && Ready(rows0, staged0, issued0, calls)
    requires Progress(rows0, staged0, calls, done, [], db.rows, fw.staged)
    requires Distinct(ids) && Elements(ids) !! done
    requires forall id :: id in ids ==> id in rows0 && rows0[id].status.Pending? && !IsPlaceholder(rows0[id].uuid)
    modifies db`rows, fw`staged
    ensures fw.Valid() && Progress(rows0, staged0, calls, done + Elements(ids), [], db.rows, fw.staged)
    ensures Tally(rows0, staged0.rules.Keys, calls, Elements(ids), applied, failed)
  {
    hide Progress, Tally;
    LoopStart(rows0, staged0.rules.Keys, issued0, calls);
    applied, failed := 0, 0;
    assert ids[..0] == [] && Elements(ids[..0]) == {} && done + Elements(ids[..0]) == done;
    for i := 0 to |ids|
      invariant fw.Valid()
      invariant Progress(rows0, staged0, calls, done + Elements(ids[..i]), [], db.rows, fw.staged)
      invariant Tally(rows0, staged0.rules.Keys, calls, Elements(ids[..i]), applied, failed)
    {
      var id := ids[i];
      LoopStep(rows0, staged0.rules.Keys, calls, done, ids, i, applied, failed);
      var ok := PushUpdate(db, fw, calls, id, done + Elements(ids[..i]), rows0, staged0, issued0);
      applied, failed := if ok then applied + 1 else applied, if ok then failed else failed + 1;
    }
    assert ids[..|ids|] == ids;
  }

  lemma NoneYet(ids: seq<RowId>, done: set<RowId>)
    ensures ids[..0] == [] && Elements(ids[..0]) == {} && done + Elements(ids[..0]) == done
  {
  }

  method PushCreates(db: RuleTable, fw: Firewall, calls: Calls, ids: seq<RowId>, ghost done: set<RowId>,
                     ghost rows0: map<RowId, Row>, ghost staged0: Ruleset, ghost issued0: set<Uuid>)
      returns (applied: nat, failed: nat)
    requires fw.Valid() && Ready(rows0, staged0, issued0, calls)
    requires Progress(rows0, staged0, calls, done, [], db.rows, fw.staged)
    requires Distinct(ids) && Elements(ids) !! done
    requires fw.issued == issued0 && forall id :: id in ids ==> id in rows0 && IsCreate(rows0[id])
    modifies db`rows, fw`staged, fw`issued
    ensures fw.Valid()
    ensures Progress(rows0, staged0, calls, done + Elements(ids), Created(rows0, staged0.rules.Keys, calls, ids),
                     db.rows, fw.staged)
    ensures fw.issued == IssuedAfter(rows0, staged0.rules.Keys, issued0, calls, Elements(ids))
    ensures Tally(rows0, staged0.rules.Keys, calls, Elements(ids), applied, failed)
  {
    hide Progress, Tally, IssuedAfter, Created, UuidsDistinct, UuidsIssued, FreshUuids, PickedIds, Distinct;
    hide Elements, PushOk;
    NoneYet(ids, done);
    LoopStart(rows0, staged0.rules.Keys, issued0, calls);
    applied, failed := 0, 0;
    for i := 0 to |ids|
      invariant fw.Valid()
      invariant Progress(rows0, staged0, calls, done + Elements(ids[..i]),
                         Created(rows0, staged0.rules.Keys, calls, ids[..i]), db.rows, fw.staged)
      invariant fw.issued == IssuedAfter(rows0, staged0.rules.Keys, issued0, calls, Elements(ids[..i]))
      invariant Tally(rows0, staged0.rules.Keys, calls, Elements(ids[..i]), applied, failed)
    {
      var id := ids[i];
      LoopStep(rows0, staged0.rules.Keys, calls, done, ids, i, applied, failed);
      PrefixStep(ids, i);
      CreatedStep(rows0, staged0.rules.Keys, calls, ids[..i], id);
      IssuedStep(rows0, staged0.rules.Keys, issued0, calls, Elements(ids[..i]), id);
      var ok := PushCreate(db, fw, calls, id, done + Elements(ids[..i]), rows0, staged0, issued0,
                           Created(rows0, staged0.rules.Keys, calls, ids[..i]));
      applied, failed := if ok then applied + 1 else applied, if ok then failed else failed + 1;
    }
    assert ids[..|ids|] == ids;
  }

  // ---------------------------------------------------------------- all pushes

  /** The three lists the task splits the picked rows into. */
  ghost predicate IsPartition(rows: map<RowId, Row>, toDelete: set<RowId>, toUpdate: set<RowId>, toCreate: set<RowId>) {
    && toDelete == (set id | id in rows && rows[id].status.PendingDelete?)
    && toUpdate == (set id | id in rows && rows[id].status.Pending? && !IsPlaceholder(rows[id].uuid))
    && toCreate == (set id | id in rows && IsCreate(rows[id]))
  }

  lemma NothingPushedYet(rows: map<RowId, Row>, staged: Ruleset, calls: Calls)
    requires staged.Valid()
    ensures Progress(rows, staged, calls, {}, [], rows, staged)
  {
    assert Effective(rows, staged.rules.Keys, calls, {}) == {};
    assert Gone(rows, staged.rules.Keys, calls, {}) == {};
    WithoutNothing(staged.order);
  }

  lemma ReadyToPush(rows: map<RowId, Row>, staged: Ruleset, issued: set<Uuid>, calls: Calls)
    requires Ready(rows, staged, issued, calls)
    ensures Progress(rows, staged, calls, {}, [], rows, staged)
  {
    NothingPushedYet(rows, staged, calls);
  }

  lemma AllPushed(rows: map<RowId, Row>, known: set<Uuid>, issued: set<Uuid>, calls: Calls,
                  toDelete: set<RowId>, toUpdate: set<RowId>, toCreate: set<RowId>)
    requires IsPartition(rows, toDelete, toUpdate, toCreate)
    ensures toDelete !! toUpdate && (toDelete + toUpdate) !! toCreate
    ensures toDelete + toUpdate + toCreate == PickedIds(rows)
    ensures RowsPushed(rows, known, calls, PickedIds(rows)) == RowsPushed(rows, known, calls, rows.Keys)
    ensures Effective(rows, known, calls, PickedIds(rows)) == Effective(rows, known, calls, rows.Keys)
    ensures Gone(rows, known, calls, PickedIds(rows)) == Gone(rows, known, calls, rows.Keys)
    ensures IssuedAfter(rows, known, issued, calls, toCreate) == IssuedAfter(rows, known, issued, calls, rows.Keys)
  {
    var all := toDelete + toUpdate + toCreate;
    assert forall id :: id in all <==> id in PickedIds(rows);
  }

  lemma TallySum(rows: map<RowId, Row>, known: set<Uuid>, calls: Calls, a: set<RowId>, b: set<RowId>,
                 applied1: nat, failed1: nat, applied2: nat, failed2: nat)
    requires a !! b && Tally(rows, known, calls, a, applied1, failed1)
        && Tally(rows, known, calls, b, applied2, failed2)
    ensures Tally(rows, known, calls, a + b, applied1 + applied2, failed1 + failed2)
  {
    EffectiveUnion(rows, known, calls, a, b);
  }

  method PushAll(db: RuleTable, fw: Firewall, calls: Calls,
                 toDelete: seq<RowId>, toUpdate: seq<RowId>, toCreate: seq<RowId>)
      returns (report: Report)
    requires fw.Valid() && Ready(db.rows, fw.staged, fw.issued, calls)
    requires Distinct(toDelete) && Distinct(toUpdate) && Distinct(toCreate)
    requires IsPartition(db.rows, Elements(toDelete), Elements(toUpdate), Elements(toCreate))
    modifies db`rows, fw`staged, fw`issued
    ensures fw.Valid()
    ensures Progress(old(db.rows), old(fw.staged), calls, old(db.rows).Keys,
                     Created(old(db.rows), old(fw.staged).rules.Keys, calls, toCreate), db.rows, fw.staged)
    ensures UuidsDistinct(db.rows)
    ensures fw.issued == IssuedAfter(old(db.rows), old(fw.staged).rules.Keys, old(fw.issued), calls, old(db.rows).Keys)
    ensures Tally(old(db.rows), old(fw.staged).rules.Keys, calls, PickedIds(old(db.rows)), report.applied,
                  report.failed)
    ensures report.applied == |Effective(old(db.rows), old(fw.staged).rules.Keys, calls, old(db.rows).Keys)|
  {
    hide *;
    ghost var rows0, staged0, issued0 := db.rows, fw.staged, fw.issued;
    ghost var known, deletes, updates := staged0.rules.Keys, Elements(toDelete), Elements(toUpdate);
    ReadyToPush(rows0, staged0, issued0, calls);
    AllPushed(rows0, known, issued0, calls, deletes, updates, Elements(toCreate));
    SplitRows(rows0, toDelete, toUpdate, toCreate);
    var a1, f1 := PushDeletes(db, fw, calls, toDelete, {}, rows0, staged0, issued0);
    assert {} + deletes == deletes;
    var a2, f2 := PushUpdates(db, fw, calls, toUpdate, deletes, rows0, staged0, issued0);
    TallySum(rows0, known, calls, deletes, updates, a1, f1, a2, f2);
    var a3, f3 := PushCreates(db, fw, calls, toCreate, deletes + updates, rows0, staged0, issued0);
    TallySum(rows0, known, calls, deletes + updates, Elements(toCreate), a1 + a2, f1 + f2, a3, f3);
    report := Report(a1 + a2 + a3, f1 + f2 + f3);
    AppliedCount(rows0, known, calls, report.applied, report.failed);
    EveryRowPushed(rows0, staged0, calls, Created(rows0, known, calls, toCreate), db.rows, fw.staged);
    PushedUuidsDistinct(rows0, staged0, issued0, calls, rows0.Keys);
  }

  lemma SplitRows(rows: map<RowId, Row>, toDelete: seq<RowId>, toUpdate: seq<RowId>, toCreate: seq<RowId>)
    requires IsPartition(rows, Elements(toDelete), Elements(toUpdate), Elements(toCreate))
    ensures forall id :: id in toDelete ==> id in rows && rows[id].status.PendingDelete?
    ensures forall id :: id in toUpdate ==> id in rows && rows[id].status.Pending? && !IsPlaceholder(rows[id].uuid)
    ensures forall id :: id in toCreate ==> id in rows && IsCreate(rows[id])
  {
    assert forall id :: id in toDelete ==> id in Elements(toDelete);
    assert forall id :: id in toUpdate ==> id in Elements(toUpdate);
    assert forall id :: id in toCreate ==> id in Elements(toCreate);
  }

  lemma AppliedCount(rows: map<RowId, Row>, known: set<Uuid>, calls: Calls, applied: nat, failed: nat)
    requires Tally(rows, known, calls, PickedIds(rows), applied, failed)
    ensures applied == |Effective(rows, known, calls, rows.Keys)|
  {
    assert Effective(rows, known, calls, PickedIds(rows)) == Effective(rows, known, calls, rows.Keys);
  }

  /** Rows that were not picked count as pushed. */
  lemma EveryRowPushed(rows0: map<RowId, Row>, staged0: Ruleset, calls: Calls, created: seq<Uuid>,
                       rows: map<RowId, Row>, staged: Ruleset)
    requires Progress(rows0, staged0, calls, PickedIds(rows0), created, rows, staged)
    ensures Progress(rows0, staged0, calls, rows0.Keys, created, rows, staged)
    ensures rows == RowsPushed(rows0, staged0.rules.Keys, calls, rows0.Keys)
  {
    var known := staged0.rules.Keys;
    assert RowsPushed(rows0, known, calls, PickedIds(rows0)) == RowsPushed(rows0, known, calls, rows0.Keys);
    assert Effective(rows0, known, calls, PickedIds(rows0)) == Effective(rows0, known, calls, rows0.Keys);
  }

  // ---------------------------------------------------------------- reorder, reload, drop

  /** The reorder loop: the last two rules of the database order first. */
  method PushOrder(fw: Firewall, desired: seq<Uuid>, failing: set<nat>)
    requires fw.Valid() && Distinct(desired) && |desired| > 1
    modifies fw`staged
    ensures fw.Valid()
    ensures fw.staged == old(fw.staged).(order := Reorder(old(fw.staged).order, desired, failing, 0))
  {
    var listed := fw.staged.order;
    for i := |desired| - 1 downto 0
      invariant fw.Valid()
      invariant fw.staged == old(fw.staged).(order := Reorder(listed, desired, failing, i))
    {
      if desired[i] in listed && desired[i + 1] in listed {
        assert desired[i] in Elements(listed) && desired[i + 1] in Elements(listed);
        var ok := fw.MoveRuleBefore(desired[i], desired[i + 1], i in failing);
      }
    }
  }

  /** After a failed reload every row this task has just marked synced becomes failed. */
  method FailSynced(db: RuleTable, ids: set<RowId>, text: string)
    modifies db`rows
    ensures db.rows == RowsFailed(old(db.rows), ids, text)
  {
    var todo := ids;
    ghost var rows0 := db.rows;
    while todo != {}
      invariant todo <= ids
      invariant db.rows == RowsFailed(rows0, ids - todo, text)
      decreases |todo|
    {
      var id :| id in todo;
      if id in db.rows && db.rows[id].status.Synced? {
        db.rows := db.rows[id := db.rows[id].(status := Failed, error := Some(Clip(text)))];
      }
      todo := todo - {id};
    }
    assert ids - todo == ids;
  }

  ghost function RowsFailed(rows: map<RowId, Row>, ids: set<RowId>, text: string): map<RowId, Row> {
    map id | id in rows :: if id in ids && rows[id].status.Synced?
                           then rows[id].(status := Failed, error := Some(Clip(text))) else rows[id]
  }

  /** The deleted rows leave the table unless their remote deletion failed. */
  method DropDeleted(db: RuleTable, ids: set<RowId>)
    modifies db`rows
    ensures db.rows == RowsKept(old(db.rows), ids)
  {
    var todo := ids;
    ghost var rows0 := db.rows;
    while todo != {}
      invariant todo <= ids
      invariant db.rows == RowsKept(rows0, ids - todo)
      decreases |todo|
    {
      var id :| id in todo;
      if id in db.rows && !db.rows[id].status.Failed? {
        db.rows := db.rows - {id};
      }
      todo := todo - {id};
    }
    assert ids - todo == ids;
  }

  ghost function RowsKept(rows: map<RowId, Row>, ids: set<RowId>): map<RowId, Row> {
    map id | id in rows && (id in ids ==> rows[id].status.Failed?) :: rows[id]
  }

  lemma FinishedRows(rows: map<RowId, Row>, known: set<Uuid>, calls: Calls,
                     toDelete: set<RowId>, toUpdate: set<RowId>, toCreate: set<RowId>)
    requires IsPartition(rows, toDelete, toUpdate, toCreate)
    ensures var pushed := RowsPushed(rows, known, calls, rows.Keys);
            var marked := if ReloadOk(rows, known, calls) then pushed
                          else RowsFailed(pushed, toUpdate + toCreate, calls.reloadText);
            RowsKept(marked, toDelete) == RowsDone(rows, known, calls)
  {
    var pushed := RowsPushed(rows, known, calls, rows.Keys);
    var reloadOk := ReloadOk(rows, known, calls);
    var marked := if reloadOk then pushed else RowsFailed(pushed, toUpdate + toCreate, calls.reloadText);
    var kept := RowsKept(marked, toDelete);
    forall id | id in rows
      ensures id in kept <==> id in RowsDone(rows, known, calls)
      ensures id in kept ==> kept[id] == RowsDone(rows, known, calls)[id]
    {
      FinishedRow(rows, known, calls, toDelete, toUpdate, toCreate, id);
    }
  }

  lemma FinishedRow(rows: map<RowId, Row>, known: set<Uuid>, calls: Calls,
                    toDelete: set<RowId>, toUpdate: set<RowId>, toCreate: set<RowId>, id: RowId)
    requires IsPartition(rows, toDelete, toUpdate, toCreate) && id in rows
    ensures var reloadOk := ReloadOk(rows, known, calls);
            var pushed := RowPushed(known, calls, id, rows[id]);
            var marked := if !reloadOk && id in toUpdate + toCreate && pushed.status.Synced?
                          then pushed.(status := Failed, error := Some(Clip(calls.reloadText))) else pushed;
            RowDone(known, calls, reloadOk, id, rows[id])
            == if id in toDelete && !marked.status.Failed? then None else Some(marked)
  {
  }

  method ReloadAndDrop(db: RuleTable, fw: Firewall, calls: Calls, applied: nat,
                       toDelete: set<RowId>, toUpdate: set<RowId>, toCreate: set<RowId>,
                       ghost rows0: map<RowId, Row>, ghost known: set<Uuid>)
    requires fw.Valid() && IsPartition(rows0, toDelete, toUpdate, toCreate)
    requires db.rows == RowsPushed(rows0, known, calls, rows0.Keys)
    requires applied == |Effective(rows0, known, calls, rows0.Keys)|
    modifies db`rows, fw`live
    ensures fw.Valid() && db.rows == RowsDone(rows0, known, calls)
    ensures fw.live == if applied == 0 || calls.reloadFails then old(fw.live) else fw.staged
  {
    if applied > 0 {
      var ok := fw.ApplyRules(calls.reloadFails);
      if !ok {
        FailSynced(db, toUpdate + toCreate, calls.reloadText);
      }
    }
    DropDeleted(db, toDelete);
    FinishedRows(rows0, known, calls, toDelete, toUpdate, toCreate);
  }

  // ---------------------------------------------------------------- the task

  function UuidsOf(rows: map<RowId, Row>, ids: seq<RowId>): seq<Uuid>
    requires forall id :: id in ids ==> id in rows
  {
    seq(|ids|, i requires 0 <= i < |ids| => rows[ids[i]].uuid)
  }

  lemma PushedUuidsDistinct(rows: map<RowId, Row>, staged: Ruleset, issued: set<Uuid>, calls: Calls, done: set<RowId>)
    requires Ready(rows, staged, issued, calls)
    ensures UuidsDistinct(RowsPushed(rows, staged.rules.Keys, calls, done))
  {
    var pushed := RowsPushed(rows, staged.rules.Keys, calls, done);
    forall i, j | i in pushed && j in pushed && i != j
      ensures pushed[i].uuid != pushed[j].uuid
    {
      PushedPair(rows, issued, staged.rules.Keys, calls, i, j);
      PushedPair(rows, issued, staged.rules.Keys, calls, j, i);
    }
  }

  lemma PushedPair(rows: map<RowId, Row>, issued: set<Uuid>, known: set<Uuid>, calls: Calls, i: RowId, j: RowId)
    requires UuidsDistinct(rows) && UuidsIssued(rows, issued) && FreshUuids(rows, issued, calls)
    requires i in rows && j in rows && i != j
    ensures RowPushed(known, calls, i, rows[i]).uuid != rows[j].uuid
    ensures RowPushed(known, calls, i, rows[i]).uuid != RowPushed(known, calls, j, rows[j]).uuid
  {
  }

  lemma SequenceUuids(rows: map<RowId, Row>, ids: seq<RowId>)
    requires UuidsDistinct(rows) && IsSequenceOrder(rows, ids)
    ensures forall id :: id in ids ==> id in rows
    ensures Distinct(UuidsOf(rows, ids))
  {
    assert forall id :: id in ids ==> id in Elements(ids);
  }

  /** How the reorder loop leaves the staged order: it runs over all rows by sequence, those
      being deleted included. */
  ghost predicate Ordered(rows: map<RowId, Row>, pushed: seq<Uuid>, calls: Calls, after: seq<Uuid>) {
    exists ids :: OrderVia(rows, pushed, calls, after, ids)
  }

  ghost predicate OrderVia(rows: map<RowId, Row>, pushed: seq<Uuid>, calls: Calls, after: seq<Uuid>, ids: seq<RowId>) {
    && IsSequenceOrder(rows, ids) && (forall id :: id in ids ==> id in rows)
    && Distinct(pushed) && Distinct(UuidsOf(rows, ids))
    && after == if calls.listFails then pushed else Reorder(pushed, UuidsOf(rows, ids), calls.failingMoves, 0)
  }

  method ReorderRules(db: RuleTable, fw: Firewall, calls: Calls)
    requires fw.Valid() && UuidsDistinct(db.rows)
    modifies fw`staged
    ensures fw.Valid() && fw.staged.rules == old(fw.staged).rules
    ensures Ordered(db.rows, old(fw.staged).order, calls, fw.staged.order)
  {
    ghost var pushed := fw.staged.order;
    var ids := db.BySequence();
    SequenceUuids(db.rows, ids);
    var desired := UuidsOf(db.rows, ids);
    if !calls.listFails && |desired| > 1 && fw.staged.order != [] {
      PushOrder(fw, desired, calls.failingMoves);
    } else {
      NothingToMove(pushed, desired, calls.failingMoves, 0);
    }
    assert OrderVia(db.rows, pushed, calls, fw.staged.order, ids);
  }

  lemma {:induction false} NothingToMove(order: seq<Uuid>, desired: seq<Uuid>, failing: set<nat>, from: nat)
    requires Distinct(order) && Distinct(desired)
    ensures order == [] || |desired| <= 1 ==> Reorder(order, desired, failing, from) == order
    decreases |desired| - from
  {
    if from + 1 < |desired| {
      NothingToMove(order, desired, failing, from + 1);
    }
  }

  /** A list comprehension with a condition. */
  function Those(ids: seq<RowId>, p: RowId -> bool): seq<RowId> {
    if ids == [] then []
    else
      var front, last := Those(ids[..|ids| - 1], p), ids[|ids| - 1];
      if p(last) then front + [last] else front
  }

  lemma {:induction false} ThoseElements(ids: seq<RowId>, p: RowId -> bool)
    requires Distinct(ids)
    ensures Distinct(Those(ids, p)) && Elements(Those(ids, p)) == set id | id in Elements(ids) && p(id)
  {
    if ids != [] {
      var front, last := ids[..|ids| - 1], ids[|ids| - 1];
      ThoseElements(front, p);
      PrefixStep(ids, |front|);
      assert ids == front + [last];
      AppendElements(Those(front, p), last);
      assert forall i :: 0 <= i < |Those(front, p)| ==> Those(front, p)[i] in Elements(Those(front, p));
    }
  }

  /** Rows that are not creations add nothing to the order. */
  lemma {:induction false} CreatedOfThose(rows: map<RowId, Row>, known: set<Uuid>, calls: Calls, ids: seq<RowId>)
    ensures Created(rows, known, calls, Those(ids, id => id in rows && IsCreate(rows[id])))
                  == Created(rows, known, calls, ids)
  {
    if ids != [] {
      var front, last := ids[..|ids| - 1], ids[|ids| - 1];
      var p := id => id in rows && IsCreate(rows[id]);
      CreatedOfThose(rows, known, calls, front);
      CreatedStep(rows, known, calls, Those(front, p), last);
    }
  }

  /** The query for pending rows and its split into three lists, each in query order: every
      picked row is in exactly one of them. */
  method SelectPending(db: RuleTable, calls: Calls)
      returns (toDelete: seq<RowId>, toUpdate: seq<RowId>, toCreate: seq<RowId>)
    requires Distinct(calls.queryOrder) && Elements(calls.queryOrder) == PickedIds(db.rows)
    ensures Distinct(toDelete) && Distinct(toUpdate) && Distinct(toCreate)
    ensures IsPartition(db.rows, Elements(toDelete), Elements(toUpdate), Elements(toCreate))
    ensures Elements(toDelete) !! Elements(toUpdate) && Elements(toDelete) + Elements(toUpdate) !! Elements(toCreate)
    ensures Elements(toDelete) + Elements(toUpdate) + Elements(toCreate) == PickedIds(db.rows)
    ensures toCreate == Those(calls.queryOrder, id => id in old(db.rows) && IsCreate(old(db.rows)[id]))
  {
    var rows, picked := db.rows, calls.queryOrder;
    toDelete := Those(picked, id => id in rows && rows[id].status.PendingDelete?);
    toUpdate := Those(picked, id => id in rows && rows[id].status.Pending? && !IsPlaceholder(rows[id].uuid));
    toCreate := Those(picked, id => id in rows && IsCreate(rows[id]));
    ThoseElements(picked, id => id in rows && rows[id].status.PendingDelete?);
    ThoseElements(picked, id => id in rows && rows[id].status.Pending? && !IsPlaceholder(rows[id].uuid));
    ThoseElements(picked, id => id in rows && IsCreate(rows[id]));
  }

  method ApplyAllPendingRules(db: RuleTable, fw: Firewall, calls: Calls) returns (report: Report)
    requires fw.Valid() && Ready(db.rows, fw.staged, fw.issued, calls)
    modifies db`rows, fw
    ensures fw.Valid()
    ensures Applied(old(db.rows), old(fw.staged), old(fw.live), calls, db.rows, fw.staged, fw.live)
    ensures fw.issued == IssuedAfter(old(db.rows), old(fw.staged).rules.Keys, old(fw.issued), calls, old(db.rows).Keys)
    ensures Tally(old(db.rows), old(fw.staged).rules.Keys, calls, PickedIds(old(db.rows)), report.applied,
                  report.failed)
  {
    hide Applied, Ordered, Created, IssuedAfter, IsPartition, RowsDone, Those, Tally;
    ghost var rows0, staged0 := db.rows, fw.staged;
    ghost var known := staged0.rules.Keys;
    var toDelete, toUpdate, toCreate := SelectPending(db, calls);
    if toDelete == [] && toUpdate == [] && toCreate == [] {
      NothingPicked(rows0, staged0, fw.live, calls, fw.issued);
      return Report(0, 0);
    }
    SomethingPicked(rows0, toDelete, toUpdate, toCreate);
    report := PushAll(db, fw, calls, toDelete, toUpdate, toCreate);
    ghost var pushed := fw.staged;
    CreatedOfThose(rows0, known, calls, calls.queryOrder);
    ReorderRules(db, fw, calls);
    ReloadAndDrop(db, fw, calls, report.applied, Elements(toDelete), Elements(toUpdate), Elements(toCreate), rows0,
                  known);
    PushesDone(rows0, staged0, old(fw.live), calls, pushed, db.rows, fw.staged, fw.live);
  }

  lemma SomethingPicked(rows: map<RowId, Row>, toDelete: seq<RowId>, toUpdate: seq<RowId>, toCreate: seq<RowId>)
    requires toDelete != [] || toUpdate != [] || toCreate != []
    requires Elements(toDelete) + Elements(toUpdate) + Elements(toCreate) == PickedIds(rows)
    ensures PickedIds(rows) != {}
  {
    assert toDelete != [] ==> toDelete[0] in Elements(toDelete);
    assert toUpdate != [] ==> toUpdate[0] in Elements(toUpdate);
    assert toCreate != [] ==> toCreate[0] in Elements(toCreate);
  }

  lemma PushesDone(rows0: map<RowId, Row>, staged0: Ruleset, live0: Ruleset, calls: Calls, pushed: Ruleset,
                   rows: map<RowId, Row>, staged: Ruleset, live: Ruleset)
    requires PickedIds(rows0) != {} && rows == RowsDone(rows0, staged0.rules.Keys, calls)
    requires Progress(rows0, staged0, calls, rows0.Keys, Created(rows0, staged0.rules.Keys, calls, calls.queryOrder),
                      RowsPushed(rows0, staged0.rules.Keys, calls, rows0.Keys), pushed)
    requires pushed.rules == staged.rules
    requires Ordered(RowsPushed(rows0, staged0.rules.Keys, calls, rows0.Keys), pushed.order, calls, staged.order)
    requires live == if |Effective(rows0, staged0.rules.Keys, calls, rows0.Keys)| == 0 || calls.reloadFails
                     then live0 else staged
    ensures Applied(rows0, staged0, live0, calls, rows, staged, live)
  {
  }

  /** The two sides before and after one run of the task. */
  ghost predicate Applied(rows0: map<RowId, Row>, staged0: Ruleset, live0: Ruleset, calls: Calls,
                          rows: map<RowId, Row>, staged: Ruleset, live: Ruleset) {
    var known := staged0.rules.Keys;
    var effective := Effective(rows0, known, calls, rows0.Keys);
    && rows == RowsDone(rows0, known, calls)
    && Contents(rows0, staged0.rules, calls, effective, staged.rules)
    && (PickedIds(rows0) == {} ==> staged == staged0)
    && (PickedIds(rows0) != {} ==>
          Ordered(RowsPushed(rows0, known, calls, rows0.Keys), PushedOrder(rows0, staged0.order, known, calls), calls,
                  staged.order))
    && live == if effective == {} || calls.reloadFails then live0 else staged
  }

  lemma NothingPicked(rows: map<RowId, Row>, staged: Ruleset, live: Ruleset, calls: Calls, issued: set<Uuid>)
    requires PickedIds(rows) == {} && staged.Valid()
    ensures Applied(rows, staged, live, calls, rows, staged, live)
    ensures Tally(rows, staged.rules.Keys, calls, PickedIds(rows), 0, 0)
    ensures IssuedAfter(rows, staged.rules.Keys, issued, calls, rows.Keys) == issued
  {
    assert forall id :: id in rows ==> id !in PickedIds(rows);
    assert forall id :: id in rows ==> !Picked(rows[id]);
    assert Effective(rows, staged.rules.Keys, calls, rows.Keys) == {};
    assert RowsDone(rows, staged.rules.Keys, calls) == rows;
    NothingPushedYet(rows, staged, calls);
  }
}
