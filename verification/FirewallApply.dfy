/** `apply_all_pending_rules_task`: pushing the pending rows to the appliance. The loops of
    the task are proved against a closed form of its result, row by row and uuid by uuid. */
module FirewallApply {
  import opened Text
  import opened RuleRecord
  import opened RuleOrder
  import opened FirewallModel

  /** How the outside behaves during one task: in which order the database returns the picked
      rows, which provider calls throw, with what text, and which uuids the appliance assigns.
      A row takes part in at most one push call. */
  datatype Calls = Calls(
    now: nat,
    queryOrder: seq<RowId>,
    failing: set<RowId>,
    errorText: map<RowId, string>,
    newUuid: map<RowId, Uuid>,
    listFails: bool,
    failingMoves: set<nat>,
    reloadFails: bool,
    reloadText: string)

  datatype Report = Report(applied: nat, failed: nat)

  // ---------------------------------------------------------------- closed form, per row

  predicate Picked(r: Row) {
    r.status.Pending? || r.status.PendingDelete?
  }

  predicate IsCreate(r: Row) {
    r.status.Pending? && IsPlaceholder(r.uuid)
  }

  /** The push of a picked row succeeds; deleting a placeholder row makes no call at all. */
  predicate PushOk(known: set<Uuid>, calls: Calls, id: RowId, r: Row) {
    if IsPlaceholder(r.uuid) then r.status.PendingDelete? || id !in calls.failing
    else id !in calls.failing && r.uuid in known
  }

  function AssignedUuid(calls: Calls, id: RowId): Uuid {
    if id in calls.newUuid then calls.newUuid[id] else ""
  }

  function PushedUuid(calls: Calls, id: RowId, r: Row): Uuid {
    if IsPlaceholder(r.uuid) then AssignedUuid(calls, id) else r.uuid
  }

  function Clip(text: string): string {
    if |text| <= 500 then text else text[..500]
  }

  function ErrorOf(calls: Calls, id: RowId): Option<string> {
    Some(Clip(if id in calls.errorText then calls.errorText[id] else ""))
  }

  /** A row after its push, before the reload. */
  function RowPushed(known: set<Uuid>, calls: Calls, id: RowId, r: Row): Row {
    if !Picked(r) then r
    else if !PushOk(known, calls, id, r) then r.(status := Failed, error := ErrorOf(calls, id))
    else if r.status.PendingDelete? then r
    else r.(uuid := PushedUuid(calls, id, r), status := Synced, error := None, syncedAt := Some(calls.now))
  }

  /** The picked rows whose push succeeded. */
  function Effective(rows: map<RowId, Row>, known: set<Uuid>, calls: Calls, done: set<RowId>): set<RowId> {
    set id | id in done && id in rows && Picked(rows[id]) && PushOk(known, calls, id, rows[id])
  }

  function PickedIds(rows: map<RowId, Row>): set<RowId> {
    set id | id in rows && Picked(rows[id])
  }

  /** The reload runs when something was pushed; it then succeeds or throws. */
  predicate ReloadOk(rows: map<RowId, Row>, known: set<Uuid>, calls: Calls) {
    Effective(rows, known, calls, rows.Keys) == {} || !calls.reloadFails
  }

  /** A row at the end of the task; None when the task deletes it. */
  function RowDone(known: set<Uuid>, calls: Calls, reloadOk: bool, id: RowId, r: Row): Option<Row> {
    var pushed := RowPushed(known, calls, id, r);
    if !Picked(r) || !PushOk(known, calls, id, r) then Some(pushed)
    else if r.status.PendingDelete? then None
    else if reloadOk then Some(pushed)
    else Some(pushed.(status := Failed, error := Some(Clip(calls.reloadText))))
  }

  function RowsPushed(rows: map<RowId, Row>, known: set<Uuid>, calls: Calls, done: set<RowId>): map<RowId, Row> {
    map id | id in rows :: if id in done then RowPushed(known, calls, id, rows[id]) else rows[id]
  }

  function RowsDone(rows: map<RowId, Row>, known: set<Uuid>, calls: Calls): map<RowId, Row> {
    var reloadOk := ReloadOk(rows, known, calls);
    map id | id in rows && RowDone(known, calls, reloadOk, id, rows[id]).Some? ::
      RowDone(known, calls, reloadOk, id, rows[id]).value
  }

  // ---------------------------------------------------------------- closed form, the staged order

  /** The uuids of the rows in `done` whose remote deletion succeeded. */
  function Gone(rows: map<RowId, Row>, known: set<Uuid>, calls: Calls, done: set<RowId>): set<Uuid> {
    set id | id in Effective(rows, known, calls, done) && IsRemoteDelete(rows[id]) :: rows[id].uuid
  }

  predicate IsRemoteDelete(r: Row) {
    r.status.PendingDelete? && !IsPlaceholder(r.uuid)
  }

  /** The uuids assigned to those of `ids` that were created, in the order of `ids`. */
  function Created(rows: map<RowId, Row>, known: set<Uuid>, calls: Calls, ids: seq<RowId>): seq<Uuid> {
    if ids == [] then []
    else
      var front, last := Created(rows, known, calls, ids[..|ids| - 1]), ids[|ids| - 1];
      if last in rows && IsCreate(rows[last]) && PushOk(known, calls, last, rows[last])
      then front + [AssignedUuid(calls, last)] else front
  }

  /** The staged order when the reorder loop starts: the old one without the deleted rules,
      then the new rules in the order in which the query returned their rows. */
  function PushedOrder(rows: map<RowId, Row>, order: seq<Uuid>, known: set<Uuid>, calls: Calls): seq<Uuid> {
    Without(order, Gone(rows, known, calls, rows.Keys)) + Created(rows, known, calls, calls.queryOrder)
  }

  // ---------------------------------------------------------------- closed form, per uuid

  /** What the staged rules hold after the pushes of the rows `effective` have succeeded. */
  ghost predicate Contents(rows: map<RowId, Row>, before: map<Uuid, RuleDict>, calls: Calls, effective: set<RowId>,
                           after: map<Uuid, RuleDict>) {
    && PushedStored(rows, calls, effective, after)
    && DeletedGone(rows, effective, after)
    && (forall u :: u in after ==> u in before || CreatedIn(rows, calls, effective, u))
    && (forall u :: u in before && !HeldIn(rows, effective, u) ==> u in after && after[u] == before[u])
  }

  ghost predicate PushedStored(rows: map<RowId, Row>, calls: Calls, effective: set<RowId>, after: map<Uuid, RuleDict>) {
    forall id :: id in effective && id in rows && rows[id].status.Pending? ==>
      PushedUuid(calls, id, rows[id]) in after && after[PushedUuid(calls, id, rows[id])] == Payload(rows[id].fields)
  }

  ghost predicate DeletedGone(rows: map<RowId, Row>, effective: set<RowId>, after: map<Uuid, RuleDict>) {
    forall id :: id in effective && id in rows && rows[id].status.PendingDelete? ==> rows[id].uuid !in after
  }

  ghost predicate HeldIn(rows: map<RowId, Row>, ids: set<RowId>, u: Uuid) {
    exists id :: id in ids && id in rows && rows[id].uuid == u
  }

  ghost predicate CreatedIn(rows: map<RowId, Row>, calls: Calls, ids: set<RowId>, u: Uuid) {
    exists id :: id in ids && id in rows && IsCreate(rows[id]) && AssignedUuid(calls, id) == u
  }

  /** The appliance assigns new, pairwise different uuids. */
  ghost predicate FreshUuids(rows: map<RowId, Row>, issued: set<Uuid>, calls: Calls) {
    && (forall id :: id in rows && IsCreate(rows[id]) ==>
          AssignedUuid(calls, id) !in issued && !IsPlaceholder(AssignedUuid(calls, id)))
    && (forall i, j :: i in rows && j in rows && i != j && IsCreate(rows[i]) && IsCreate(rows[j]) ==>
          AssignedUuid(calls, i) != AssignedUuid(calls, j))
  }

  /** Real uuids in the table have been issued by the appliance. */
  ghost predicate UuidsIssued(rows: map<RowId, Row>, issued: set<Uuid>) {
    forall id :: id in rows && !IsPlaceholder(rows[id].uuid) ==> rows[id].uuid in issued
  }

  ghost predicate Ready(rows: map<RowId, Row>, staged: Ruleset, issued: set<Uuid>, calls: Calls) {
    && UuidsDistinct(rows) && UuidsIssued(rows, issued) && FreshUuids(rows, issued, calls)
    && staged.Valid() && staged.rules.Keys <= issued
    && (forall u :: u in issued ==> !IsPlaceholder(u))
    && Distinct(calls.queryOrder) && Elements(calls.queryOrder) == PickedIds(rows)
  }

  /** Both sides after the rows of `done` have been pushed; `created` are the rules added so far. */
  ghost predicate Progress(rows0: map<RowId, Row>, staged0: Ruleset, calls: Calls, done: set<RowId>, created: seq<Uuid>,
                           rows: map<RowId, Row>, staged: Ruleset) {
    && rows == RowsPushed(rows0, staged0.rules.Keys, calls, done)
    && staged.Valid()
    && Contents(rows0, staged0.rules, calls, Effective(rows0, staged0.rules.Keys, calls, done), staged.rules)
    && OrderSoFar(rows0, staged0.order, staged0.rules.Keys, calls, done, created, staged.order)
  }

  ghost predicate OrderSoFar(rows: map<RowId, Row>, before: seq<Uuid>, known: set<Uuid>, calls: Calls, done: set<RowId>,
                             created: seq<Uuid>, after: seq<Uuid>) {
    after == Without(before, Gone(rows, known, calls, done)) + created
  }

  lemma EffectiveStep(rows: map<RowId, Row>, known: set<Uuid>, calls: Calls, done: set<RowId>, id: RowId)
    requires id in rows && Picked(rows[id])
    ensures Effective(rows, known, calls, done + {id})
            == Effective(rows, known, calls, done) + if PushOk(known, calls, id, rows[id]) then {id} else {}
  {
  }

  /** The database side of a successful push. */
  lemma StepRow(rows0: map<RowId, Row>, staged0: Ruleset, calls: Calls, done: set<RowId>, created: seq<Uuid>,
                rows: map<RowId, Row>, staged: Ruleset, id: RowId)
    requires Progress(rows0, staged0, calls, done, created, rows, staged)
    requires id in rows0 && id !in done
    ensures rows[id] == rows0[id]
    ensures RowsPushed(rows0, staged0.rules.Keys, calls, done + {id})
            == rows[id := RowPushed(staged0.rules.Keys, calls, id, rows0[id])]
  {
  }

  /** One more row pushed without success: only that row changes. */
  lemma StepFailed(rows0: map<RowId, Row>, staged0: Ruleset, calls: Calls, done: set<RowId>, created: seq<Uuid>,
                   rows: map<RowId, Row>, staged: Ruleset, id: RowId)
    requires Progress(rows0, staged0, calls, done, created, rows, staged)
    requires id in rows0 && id !in done && Picked(rows0[id]) && !PushOk(staged0.rules.Keys, calls, id, rows0[id])
    ensures rows[id] == rows0[id]
    ensures Progress(rows0, staged0, calls, done + {id}, created,
                     rows[id := rows[id].(status := Failed, error := ErrorOf(calls, id))], staged)
  {
    hide OrderSoFar, Contents;
    OrderKept(rows0, staged0.order, staged0.rules.Keys, calls, done, created, staged.order, id);
    EffectiveStep(rows0, staged0.rules.Keys, calls, done, id);
    StepRow(rows0, staged0, calls, done, created, rows, staged, id);
    assert Effective(rows0, staged0.rules.Keys, calls, done + {id})
           == Effective(rows0, staged0.rules.Keys, calls, done);
  }

  lemma MoreHeld(rows: map<RowId, Row>, calls: Calls, ids: set<RowId>, id: RowId)
    ensures forall u :: CreatedIn(rows, calls, ids, u) ==> CreatedIn(rows, calls, ids + {id}, u)
    ensures forall u :: HeldIn(rows, ids, u) ==> HeldIn(rows, ids + {id}, u)
    ensures id in rows ==> HeldIn(rows, ids + {id}, rows[id].uuid)
    ensures id in rows && IsCreate(rows[id]) ==> CreatedIn(rows, calls, ids + {id}, AssignedUuid(calls, id))
  {
    forall u | CreatedIn(rows, calls, ids, u)
      ensures CreatedIn(rows, calls, ids + {id}, u)
    {
      var j :| j in ids && j in rows && IsCreate(rows[j]) && AssignedUuid(calls, j) == u;
      assert j in ids + {id};
    }
    forall u | HeldIn(rows, ids, u)
      ensures HeldIn(rows, ids + {id}, u)
    {
      var j :| j in ids && j in rows && rows[j].uuid == u;
      assert j in ids + {id};
    }
    assert id in ids + {id};
  }

  /** Pushed uuids of different rows differ. */
  lemma PushedUuidsDiffer(rows: map<RowId, Row>, issued: set<Uuid>, calls: Calls, i: RowId, j: RowId)
    requires UuidsDistinct(rows) && UuidsIssued(rows, issued) && FreshUuids(rows, issued, calls)
    requires i in rows && j in rows && i != j
    requires rows[i].status.Pending? || !IsPlaceholder(rows[i].uuid)
    requires rows[j].status.Pending? || !IsPlaceholder(rows[j].uuid)
    ensures PushedUuid(calls, i, rows[i]) != PushedUuid(calls, j, rows[j])
  {
  }

  lemma ContentsDrop(rows: map<RowId, Row>, before: map<Uuid, RuleDict>, issued: set<Uuid>, calls: Calls,
                     effective: set<RowId>, after: map<Uuid, RuleDict>, id: RowId)
    requires Contents(rows, before, calls, effective, after)
    requires UuidsDistinct(rows) && UuidsIssued(rows, issued) && FreshUuids(rows, issued, calls)
    requires effective <= rows.Keys && id in rows && id !in effective
    requires rows[id].status.PendingDelete? && !IsPlaceholder(rows[id].uuid)
    ensures Contents(rows, before, calls, effective + {id}, after - {rows[id].uuid})
  {
    MoreHeld(rows, calls, effective, id);
    var u := rows[id].uuid;
    DropStored(rows, issued, calls, effective, after, id);
    assert DeletedGone(rows, effective + {id}, after - {u});
    assert forall v :: v in after - {u} <==> v in after && v != u;
  }

  lemma DropStored(rows: map<RowId, Row>, issued: set<Uuid>, calls: Calls, effective: set<RowId>,
                   after: map<Uuid, RuleDict>, id: RowId)
    requires PushedStored(rows, calls, effective, after)
    requires UuidsDistinct(rows) && UuidsIssued(rows, issued) && FreshUuids(rows, issued, calls)
    requires effective <= rows.Keys && id in rows && id !in effective
    requires rows[id].status.PendingDelete? && !IsPlaceholder(rows[id].uuid)
    ensures PushedStored(rows, calls, effective + {id}, after - {rows[id].uuid})
  {
    forall j | j in effective && rows[j].status.Pending?
      ensures PushedUuid(calls, j, rows[j]) != rows[id].uuid
    {
      PushedUuidsDiffer(rows, issued, calls, j, id);
    }
  }

  /** Covers both a new rule and the update of a known one. */
  lemma ContentsPut(rows: map<RowId, Row>, before: map<Uuid, RuleDict>, issued: set<Uuid>, calls: Calls,
                    effective: set<RowId>, after: map<Uuid, RuleDict>, id: RowId)
    requires Contents(rows, before, calls, effective, after)
    requires UuidsDistinct(rows) && UuidsIssued(rows, issued) && FreshUuids(rows, issued, calls)
    requires before.Keys <= issued && forall u :: u in issued ==> !IsPlaceholder(u)
    requires effective <= rows.Keys && id in rows && id !in effective && rows[id].status.Pending?
    requires IsPlaceholder(rows[id].uuid) || rows[id].uuid in before
    ensures Contents(rows, before, calls, effective + {id},
                     after[PushedUuid(calls, id, rows[id]) := Payload(rows[id].fields)])
  {
    hide PushedStored, DeletedGone, HeldIn, CreatedIn;
    var u, payload := PushedUuid(calls, id, rows[id]), Payload(rows[id].fields);
    PutApart(rows, issued, calls, effective, id, before);
    PutStored(rows, calls, effective, after, id);
    PutDeleted(rows, effective, after, id, u, payload);
    PutUntouched(rows, before, calls, effective, after, id, payload);
  }

  /** No other pushed row has to do with the uuid. */
  lemma PutApart(rows: map<RowId, Row>, issued: set<Uuid>, calls: Calls, effective: set<RowId>, id: RowId,
                 before: map<Uuid, RuleDict>)
    requires UuidsDistinct(rows) && UuidsIssued(rows, issued) && FreshUuids(rows, issued, calls)
    requires before.Keys <= issued && forall u :: u in issued ==> !IsPlaceholder(u)
    requires effective <= rows.Keys && id in rows && id !in effective && rows[id].status.Pending?
    requires IsPlaceholder(rows[id].uuid) || rows[id].uuid in before
    ensures forall j :: j in effective && rows[j].status.Pending? ==>
              PushedUuid(calls, j, rows[j]) != PushedUuid(calls, id, rows[id])
    ensures forall j :: j in effective && rows[j].status.PendingDelete? ==>
              rows[j].uuid != PushedUuid(calls, id, rows[id])
  {
    forall j | j in effective
      ensures rows[j].status.Pending? ==> PushedUuid(calls, j, rows[j]) != PushedUuid(calls, id, rows[id])
      ensures rows[j].status.PendingDelete? ==> rows[j].uuid != PushedUuid(calls, id, rows[id])
    {
      if rows[j].status.Pending? || !IsPlaceholder(rows[j].uuid) {
        PushedUuidsDiffer(rows, issued, calls, j, id);
      }
    }
  }

  lemma PutDeleted(rows: map<RowId, Row>, effective: set<RowId>, after: map<Uuid, RuleDict>, id: RowId, u: Uuid,
                   payload: RuleDict)
    requires DeletedGone(rows, effective, after) && effective <= rows.Keys && id in rows && rows[id].status.Pending?
    requires forall j :: j in effective && rows[j].status.PendingDelete? ==> rows[j].uuid != u
    ensures DeletedGone(rows, effective + {id}, after[u := payload])
  {
  }

  /** Entries of no pushed row stay, and only created ones are new. */
  lemma PutUntouched(rows: map<RowId, Row>, before: map<Uuid, RuleDict>, calls: Calls, effective: set<RowId>,
                     after: map<Uuid, RuleDict>, id: RowId, payload: RuleDict)
    requires id in rows && rows[id].status.Pending? && (IsPlaceholder(rows[id].uuid) || rows[id].uuid in before)
    requires forall u :: u in before ==> !CreatedNow(rows, calls, id, u)
    requires forall u :: u in after ==> u in before || CreatedIn(rows, calls, effective, u)
    requires forall u :: u in before && !HeldIn(rows, effective, u) ==> u in after && after[u] == before[u]
    ensures var next := after[PushedUuid(calls, id, rows[id]) := payload];
            && (forall u :: u in next ==> u in before || CreatedIn(rows, calls, effective + {id}, u))
            && (forall u :: u in before && !HeldIn(rows, effective + {id}, u) ==> u in next && next[u] == before[u])
  {
    MoreHeld(rows, calls, effective, id);
  }

  predicate CreatedNow(rows: map<RowId, Row>, calls: Calls, id: RowId, u: Uuid) {
    id in rows && IsCreate(rows[id]) && AssignedUuid(calls, id) == u
  }

  lemma PutStored(rows: map<RowId, Row>, calls: Calls, effective: set<RowId>, after: map<Uuid, RuleDict>, id: RowId)
    requires PushedStored(rows, calls, effective, after) && id in rows
    requires forall j :: j in effective && j in rows && rows[j].status.Pending? ==>
      PushedUuid(calls, j, rows[j]) != PushedUuid(calls, id, rows[id])
    ensures PushedStored(rows, calls, effective + {id},
                         after[PushedUuid(calls, id, rows[id]) := Payload(rows[id].fields)])
  {
  }

  /** A placeholder row marked for deletion needs no call. */
  lemma ContentsForget(rows: map<RowId, Row>, before: map<Uuid, RuleDict>, issued: set<Uuid>, calls: Calls,
                       effective: set<RowId>, after: map<Uuid, RuleDict>, id: RowId)
    requires Contents(rows, before, calls, effective, after)
    requires FreshUuids(rows, issued, calls)
    requires before.Keys <= issued && forall u :: u in issued ==> !IsPlaceholder(u)
    requires effective <= rows.Keys && id in rows
    requires rows[id].status.PendingDelete? && IsPlaceholder(rows[id].uuid)
    ensures Contents(rows, before, calls, effective + {id}, after)
  {
    MoreHeld(rows, calls, effective, id);
  }

  /** What one more pushed row adds to the deleted uuids. */
  lemma GoneStep(rows: map<RowId, Row>, known: set<Uuid>, calls: Calls, done: set<RowId>, id: RowId)
    requires id in rows && Picked(rows[id])
    ensures Gone(rows, known, calls, done + {id})
            == if IsRemoteDelete(rows[id]) && PushOk(known, calls, id, rows[id])
               then Gone(rows, known, calls, done) + {rows[id].uuid} else Gone(rows, known, calls, done)
  {
    EffectiveStep(rows, known, calls, done, id);
    var before, after := Effective(rows, known, calls, done), Effective(rows, known, calls, done + {id});
    forall u
      ensures u in Gone(rows, known, calls, done + {id}) <==>
              u in Gone(rows, known, calls, done)
              || (IsRemoteDelete(rows[id]) && PushOk(known, calls, id, rows[id]) && u == rows[id].uuid)
    {
      if u in Gone(rows, known, calls, done) {
        var j :| j in before && IsRemoteDelete(rows[j]) && rows[j].uuid == u;
        assert j in after;
      }
    }
  }

  /** A push that deletes nothing leaves the order. */
  lemma OrderKept(rows: map<RowId, Row>, before: seq<Uuid>, known: set<Uuid>, calls: Calls, done: set<RowId>,
                  created: seq<Uuid>, after: seq<Uuid>, id: RowId)
    requires id in rows && Picked(rows[id]) && !(IsRemoteDelete(rows[id]) && PushOk(known, calls, id, rows[id]))
    requires OrderSoFar(rows, before, known, calls, done, created, after)
    ensures OrderSoFar(rows, before, known, calls, done + {id}, created, after)
    ensures forall u :: OrderSoFar(rows, before, known, calls, done + {id}, created + [u], after + [u])
  {
    GoneStep(rows, known, calls, done, id);
  }

  lemma OrderDropped(rows: map<RowId, Row>, before: seq<Uuid>, known: set<Uuid>, calls: Calls, done: set<RowId>,
                     after: seq<Uuid>, id: RowId)
    requires id in rows && IsRemoteDelete(rows[id]) && PushOk(known, calls, id, rows[id])
    requires Distinct(before) && OrderSoFar(rows, before, known, calls, done, [], after) && rows[id].uuid in after
    ensures OrderSoFar(rows, before, known, calls, done + {id}, [], Remove(after, rows[id].uuid))
  {
    GoneStep(rows, known, calls, done, id);
    assert after == Without(before, Gone(rows, known, calls, done));
    WithoutOneMore(before, Gone(rows, known, calls, done), rows[id].uuid);
  }

  // ---------------------------------------------------------------- one push each

  lemma StepForgotten(rows0: map<RowId, Row>, staged0: Ruleset, issued0: set<Uuid>, calls: Calls, done: set<RowId>,
                      created: seq<Uuid>, rows: map<RowId, Row>, staged: Ruleset, id: RowId)
    requires Ready(rows0, staged0, issued0, calls) && Progress(rows0, staged0, calls, done, created, rows, staged)
    requires id in rows0 && id !in done && rows0[id].status.PendingDelete? && IsPlaceholder(rows0[id].uuid)
    ensures Progress(rows0, staged0, calls, done + {id}, created, rows, staged)
  {
    hide OrderSoFar;
    OrderKept(rows0, staged0.order, staged0.rules.Keys, calls, done, created, staged.order, id);
    StepRow(rows0, staged0, calls, done, created, rows, staged, id);
    EffectiveStep(rows0, staged0.rules.Keys, calls, done, id);
    ContentsForget(rows0, staged0.rules, issued0, calls, Effective(rows0, staged0.rules.Keys, calls, done),
                   staged.rules, id);
  }

  lemma StepDeleted(rows0: map<RowId, Row>, staged0: Ruleset, issued0: set<Uuid>, calls: Calls, done: set<RowId>,
                    created: seq<Uuid>, rows: map<RowId, Row>, staged: Ruleset, id: RowId)
    requires Ready(rows0, staged0, issued0, calls) && Progress(rows0, staged0, calls, done, created, rows, staged)
    requires id in rows0 && id !in done && rows0[id].status.PendingDelete? && !IsPlaceholder(rows0[id].uuid)
    requires PushOk(staged0.rules.Keys, calls, id, rows0[id]) && rows0[id].uuid in staged.order && created == []
    ensures Progress(rows0, staged0, calls, done + {id}, created, rows, staged.Drop(rows0[id].uuid))
  {
    hide OrderSoFar;
    OrderDropped(rows0, staged0.order, staged0.rules.Keys, calls, done, staged.order, id);
    StepRow(rows0, staged0, calls, done, created, rows, staged, id);
    EffectiveStep(rows0, staged0.rules.Keys, calls, done, id);
    DropIsValid(staged, rows0[id].uuid);
    ContentsDrop(rows0, staged0.rules, issued0, calls, Effective(rows0, staged0.rules.Keys, calls, done),
                 staged.rules, id);
  }

  lemma StepUpdated(rows0: map<RowId, Row>, staged0: Ruleset, issued0: set<Uuid>, calls: Calls, done: set<RowId>,
                    created: seq<Uuid>, rows: map<RowId, Row>, staged: Ruleset, id: RowId)
    requires Ready(rows0, staged0, issued0, calls) && Progress(rows0, staged0, calls, done, created, rows, staged)
    requires id in rows0 && id !in done && rows0[id].status.Pending? && !IsPlaceholder(rows0[id].uuid)
    requires PushOk(staged0.rules.Keys, calls, id, rows0[id]) && rows0[id].uuid in staged.rules
    ensures Progress(rows0, staged0, calls, done + {id}, created,
                     rows[id := RowPushed(staged0.rules.Keys, calls, id, rows0[id])],
                     staged.Replace(rows0[id].uuid, Payload(rows0[id].fields)))
  {
    hide OrderSoFar;
    OrderKept(rows0, staged0.order, staged0.rules.Keys, calls, done, created, staged.order, id);
    StepRow(rows0, staged0, calls, done, created, rows, staged, id);
    EffectiveStep(rows0, staged0.rules.Keys, calls, done, id);
    ReplaceIsValid(staged, rows0[id].uuid, Payload(rows0[id].fields));
    ContentsPut(rows0, staged0.rules, issued0, calls, Effective(rows0, staged0.rules.Keys, calls, done),
                staged.rules, id);
  }

  lemma StepCreated(rows0: map<RowId, Row>, staged0: Ruleset, issued0: set<Uuid>, calls: Calls, done: set<RowId>,
                    created: seq<Uuid>, rows: map<RowId, Row>, staged: Ruleset, id: RowId)
    requires Ready(rows0, staged0, issued0, calls) && Progress(rows0, staged0, calls, done, created, rows, staged)
    requires id in rows0 && id !in done && IsCreate(rows0[id])
    requires PushOk(staged0.rules.Keys, calls, id, rows0[id]) && AssignedUuid(calls, id) !in staged.rules
    ensures Progress(rows0, staged0, calls, done + {id}, created + [AssignedUuid(calls, id)],
                     rows[id := RowPushed(staged0.rules.Keys, calls, id, rows0[id])],
                     staged.Append(AssignedUuid(calls, id), Payload(rows0[id].fields)))
  {
    hide OrderSoFar;
    OrderKept(rows0, staged0.order, staged0.rules.Keys, calls, done, created, staged.order, id);
    StepRow(rows0, staged0, calls, done, created, rows, staged, id);
    EffectiveStep(rows0, staged0.rules.Keys, calls, done, id);
    var next := staged.Append(AssignedUuid(calls, id), Payload(rows0[id].fields));
    AppendIsValid(staged, AssignedUuid(calls, id), Payload(rows0[id].fields));
    ContentsPut(rows0, staged0.rules, issued0, calls, Effective(rows0, staged0.rules.Keys, calls, done),
                staged.rules, id);
  }

  /** A uuid whose row has not been pushed yet is known to the appliance as it was at the start. */
  lemma StillKnown(rows0: map<RowId, Row>, staged0: Ruleset, issued0: set<Uuid>, calls: Calls, done: set<RowId>,
                   created: seq<Uuid>, rows: map<RowId, Row>, staged: Ruleset, id: RowId)
    requires Ready(rows0, staged0, issued0, calls) && Progress(rows0, staged0, calls, done, created, rows, staged)
    requires id in rows0 && id !in done && !IsPlaceholder(rows0[id].uuid)
    ensures rows0[id].uuid in staged.rules <==> rows0[id].uuid in staged0.rules
  {
    hide OrderSoFar;
    var u := rows0[id].uuid;
    var effective := Effective(rows0, staged0.rules.Keys, calls, done);
    assert !HeldIn(rows0, effective, u);
    assert !CreatedIn(rows0, calls, effective, u);
  }

  lemma EffectiveCount(rows: map<RowId, Row>, known: set<Uuid>, calls: Calls, done: set<RowId>, id: RowId)
    requires id in rows && Picked(rows[id]) && id !in done
    ensures |Effective(rows, known, calls, done + {id})|
            == |Effective(rows, known, calls, done)| + if PushOk(known, calls, id, rows[id]) then 1 else 0
  {
    EffectiveStep(rows, known, calls, done, id);
  }

  lemma EffectiveUnion(rows: map<RowId, Row>, known: set<Uuid>, calls: Calls, a: set<RowId>, b: set<RowId>)
    requires a !! b
    ensures Effective(rows, known, calls, a + b) == Effective(rows, known, calls, a) + Effective(rows, known, calls, b)
    ensures |Effective(rows, known, calls, a + b)|
            == |Effective(rows, known, calls, a)| + |Effective(rows, known, calls, b)|
  {
    var ea, eb := Effective(rows, known, calls, a), Effective(rows, known, calls, b);
    assert Effective(rows, known, calls, a + b) == ea + eb;
    assert ea !! eb;
  }
}
