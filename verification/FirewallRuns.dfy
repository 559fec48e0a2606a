/** Whole histories of one tenant's firewall: API edits, applies with any failures, syncs,
    reconciles and edits made on the appliance itself, in any order. */
module FirewallRuns {
  import opened Text
  import opened RuleRecord
  import opened RuleOrder
  import opened FirewallModel
  import opened FirewallApply
  import opened FirewallTask
  import opened FirewallSync
  import opened SyncProperties
  import opened ApplyProperties
  import opened FirewallReconcile
  import opened FirewallApi

  datatype World = World(rows: map<RowId, Row>, nextId: RowId, staged: Ruleset, live: Ruleset, issued: set<Uuid>)

  datatype Event =
    | Create(requested: Option<int>, fields: Fields, placeholder: Uuid)
    | Update(uuid: Uuid, fields: Fields)
    | Delete(uuid: Uuid)
    | Toggle(uuid: Uuid)
    | MoveUp(uuid: Uuid)
    | MoveDown(uuid: Uuid)
    | Apply(calls: Calls)
    | Sync(listFails: bool, now: nat)
    | Reconcile(listFails: bool, now: nat)
    | External

  // ---------------------------------------------------------------- the step relation

  ghost predicate CreateStep(rows: map<RowId, Row>, id: RowId, e: Event, after: map<RowId, Row>)
    requires e.Create?
  {
    && |e.placeholder| >= 8 && e.placeholder[..8] == "pending-" && e.placeholder !in Held(rows)
    && after == rows[id := Row(e.placeholder, e.fields.(sequence := NewSequence(rows, e.requested)), Pending, None,
                               None)]
  }

  /** Either nothing changed or the row of the uuid was edited; edits touch rule fields and
      the status only, and leave the row unsynced. */
  ghost predicate EditStep(rows: map<RowId, Row>, after: map<RowId, Row>) {
    after == rows || exists id :: EditsRow(rows, id, after)
  }

  ghost predicate EditsRow(rows: map<RowId, Row>, id: RowId, after: map<RowId, Row>) {
    && id in rows && after.Keys == rows.Keys && after == rows[id := after[id]]
    && after[id].uuid == rows[id].uuid && !after[id].status.Synced?
  }

  ghost predicate ApplyStep(w: World, calls: Calls, w': World) {
    && Ready(w.rows, w.staged, w.issued, calls)
    && Applied(w.rows, w.staged, w.live, calls, w'.rows, w'.staged, w'.live)
    && w'.issued == IssuedAfter(w.rows, w.staged.rules.Keys, w.issued, calls, w.rows.Keys)
    && w'.nextId == w.nextId && RemoteOk(w')
  }

  ghost predicate SyncStep(w: World, now: nat, w': World) {
    || (w'.rows == w.rows && w'.nextId >= w.nextId)
    || exists result :: Completed(w.rows, w.nextId, w.staged, now, w'.rows, w'.nextId, result)
  }

  ghost predicate ReconcileStep(w: World, now: nat, w': World) {
    || ((w'.rows == w.rows || w'.rows == map[]) && w'.nextId == w.nextId)
    || exists sorted :: Rebuilt(w.staged, now, w.nextId, w'.rows, w'.nextId, sorted)
  }

  ghost predicate RemoteSame(w: World, w': World) {
    w'.staged == w.staged && w'.live == w.live && w'.issued == w.issued
  }

  ghost predicate Next(w: World, e: Event, w': World) {
    match e
    case Create(_, _, _) => CreateStep(w.rows, w.nextId, e, w'.rows) && w'.nextId == w.nextId + 1 && RemoteSame(w, w')
    case Update(uuid, fields) => RowEdited(w.rows, uuid, r => Edited(r, fields), w'.rows) && w'.nextId == w.nextId
        && RemoteSame(w, w')
    case Delete(uuid) => RowEdited(w.rows, uuid, Marked, w'.rows) && w'.nextId == w.nextId && RemoteSame(w, w')
    case Toggle(uuid) => RowEdited(w.rows, uuid, Toggled, w'.rows) && w'.nextId == w.nextId && RemoteSame(w, w')
    case MoveUp(uuid) => (w'.rows == w.rows || MovedUp(w.rows, uuid, w'.rows)) && w'.nextId == w.nextId
        && RemoteSame(w, w')
    case MoveDown(uuid) => (w'.rows == w.rows || MovedDown(w.rows, uuid, w'.rows)) && w'.nextId == w.nextId
        && RemoteSame(w, w')
    case Apply(calls) => ApplyStep(w, calls, w')
    case Sync(_, now) => SyncStep(w, now, w') && RemoteSame(w, w')
    case Reconcile(_, now) => ReconcileStep(w, now, w') && RemoteSame(w, w')
    case External => w'.rows == w.rows && w'.nextId == w.nextId && w.issued <= w'.issued && RemoteOk(w')
  }

  // ---------------------------------------------------------------- the invariant

  ghost predicate RemoteOk(w: World) {
    && w.staged.Valid() && w.live.Valid()
    && w.staged.rules.Keys <= w.issued && w.live.rules.Keys <= w.issued
    && forall u :: u in w.issued ==> !IsPlaceholder(u)
  }

  /** A placeholder uuid is never on a synced row, real uuids were issued by the appliance,
      uuids are unique, and primary keys are below the serial counter. */
  ghost predicate Inv(w: World) {
    && RemoteOk(w) && UuidsDistinct(w.rows) && IdsBelow(w.rows, w.nextId) && UuidsIssued(w.rows, w.issued)
    && forall id :: id in w.rows && IsPlaceholder(w.rows[id].uuid) ==> !w.rows[id].status.Synced?
  }

  lemma EditedRow(rows: map<RowId, Row>, uuid: Uuid, edit: Row -> Row, after: map<RowId, Row>)
    requires RowEdited(rows, uuid, edit, after)
    requires forall r :: edit(r).uuid == r.uuid && !edit(r).status.Synced?
    ensures EditStep(rows, after)
  {
    if uuid in Held(rows) {
      var id :| id in rows && rows[id].uuid == uuid && after == rows[id := edit(rows[id])];
      assert EditsRow(rows, id, after);
    }
  }

  /** The edits of single rows are edits in that sense. */
  lemma StepEdits(w: World, e: Event, w': World)
    requires Next(w, e, w') && (e.Update? || e.Delete? || e.Toggle?)
    ensures EditStep(w.rows, w'.rows)
  {
    match e
    case Update(uuid, fields) => EditedRow(w.rows, uuid, r => Edited(r, fields), w'.rows);
    case Delete(uuid) => EditedRow(w.rows, uuid, Marked, w'.rows);
    case Toggle(uuid) => EditedRow(w.rows, uuid, Toggled, w'.rows);
  }

  /** And the moves exchange two neighbours. */
  lemma StepMoves(w: World, e: Event, w': World)
    requires Next(w, e, w') && (e.MoveUp? || e.MoveDown?)
    ensures w'.rows == w.rows || MoveStep(w.rows, w'.rows)
  {
  }

  lemma EditKeepsInv(w: World, w': World)
    requires Inv(w) && RemoteSame(w, w') && w'.nextId == w.nextId && EditStep(w.rows, w'.rows)
    ensures Inv(w')
  {
  }

  lemma MoveKeepsInv(w: World, w': World)
    requires Inv(w) && RemoteSame(w, w') && w'.nextId == w.nextId && MoveStep(w.rows, w'.rows)
    ensures Inv(w') && w'.rows.Keys == w.rows.Keys
    ensures forall id :: id in w.rows ==> w'.rows[id].uuid == w.rows[id].uuid
  {
    var ids, k: nat :| SwapsAt(w.rows, ids, k, w'.rows);
    SwapEffect(w.rows, ids, k, w'.rows);
    assert w'.rows[ids[k]].status.Pending? && w'.rows[ids[k + 1]].status.Pending?;
  }

  lemma CreateKeepsInv(w: World, e: Event, w': World)
    requires Inv(w) && e.Create? && Next(w, e, w')
    ensures Inv(w')
  {
    assert "pending" == "pending-"[..7] && e.placeholder[..7] == e.placeholder[..8][..7];
    GivenPlaceholder(e.placeholder);
    assert forall id :: id in w.rows ==> w.rows[id].uuid in Held(w.rows);
  }

  /** Every row that is left holds its old uuid or the one it was assigned. */
  lemma ApplyRow(w: World, calls: Calls, w': World, id: RowId)
    requires Inv(w) && ApplyStep(w, calls, w') && id in w'.rows
    ensures id in w.rows
    ensures w'.rows[id].uuid == RowPushed(w.staged.rules.Keys, calls, id, w.rows[id]).uuid
    ensures IsPlaceholder(w'.rows[id].uuid) ==> !w'.rows[id].status.Synced? && w'.rows[id].uuid == w.rows[id].uuid
    ensures !IsPlaceholder(w'.rows[id].uuid) ==> w'.rows[id].uuid in w'.issued
    ensures IsCreate(w.rows[id]) && id !in calls.failing ==> !IsPlaceholder(w'.rows[id].uuid)
  {
    RowFate(w.rows, w.staged, w.live, calls, w'.rows, w'.staged, w'.live, id);
    if IsCreate(w.rows[id]) && id !in calls.failing {
      assert id in Effective(w.rows, w.staged.rules.Keys, calls, w.rows.Keys);
      assert AssignedUuid(calls, id) in w'.issued;
    }
  }

  lemma ApplyKeepsInv(w: World, calls: Calls, w': World)
    requires Inv(w) && ApplyStep(w, calls, w')
    ensures Inv(w')
  {
    PushedUuidsDistinct(w.rows, w.staged, w.issued, calls, w.rows.Keys);
    var pushed := RowsPushed(w.rows, w.staged.rules.Keys, calls, w.rows.Keys);
    forall id | id in w'.rows
      ensures id < w'.nextId && w'.rows[id].uuid == pushed[id].uuid
      ensures IsPlaceholder(w'.rows[id].uuid) ==> !w'.rows[id].status.Synced?
      ensures !IsPlaceholder(w'.rows[id].uuid) ==> w'.rows[id].uuid in w'.issued
    {
      ApplyRow(w, calls, w', id);
    }
  }

  lemma SyncKeepsInv(w: World, now: nat, w': World)
    requires Inv(w) && RemoteSame(w, w') && SyncStep(w, now, w')
    ensures Inv(w')
  {
    if !(w'.rows == w.rows && w'.nextId >= w.nextId) {
      var result :| Completed(w.rows, w.nextId, w.staged, now, w'.rows, w'.nextId, result);
      SyncMirrors(w.rows, w.nextId, w.staged, now, w'.rows, w'.nextId, result);
      forall id | id in w'.rows
        ensures !IsPlaceholder(w'.rows[id].uuid) ==> w'.rows[id].uuid in w'.issued
        ensures IsPlaceholder(w'.rows[id].uuid) ==> !w'.rows[id].status.Synced?
      {
        RowMirrors(w.rows, w.nextId, w.staged, now, w'.rows, w'.nextId, result, id);
      }
    }
  }

  lemma ReconcileKeepsInv(w: World, now: nat, w': World)
    requires Inv(w) && RemoteSame(w, w') && ReconcileStep(w, now, w')
    ensures Inv(w')
  {
    if !((w'.rows == w.rows || w'.rows == map[]) && w'.nextId == w.nextId) {
      var sorted :| Rebuilt(w.staged, now, w.nextId, w'.rows, w'.nextId, sorted);
      RebuiltKeepsInv(w, now, w', sorted);
    }
  }

  lemma RebuiltKeepsInv(w: World, now: nat, w': World, sorted: seq<Uuid>)
    requires Inv(w) && RemoteSame(w, w')
    requires Rebuilt(w.staged, now, w.nextId, w'.rows, w'.nextId, sorted)
    ensures Inv(w')
  {
    ReconcileEstablishesOrder(w.staged, now, w.nextId, w'.rows, w'.nextId, sorted);
    forall id | id in w'.rows
      ensures w'.rows[id].status.Synced? && w'.rows[id].uuid in w.staged.rules
    {
      ReconcileMirrorsListing(w.staged, now, w.nextId, w'.rows, w'.nextId, sorted, id);
    }
  }

  lemma NextKeepsInv(w: World, e: Event, w': World)
    requires Inv(w) && Next(w, e, w')
    ensures Inv(w')
  {
    match e
    case Create(_, _, _) => CreateKeepsInv(w, e, w');
    case Update(_, _) => StepEdits(w, e, w'); EditKeepsInv(w, w');
    case Delete(_) => StepEdits(w, e, w'); EditKeepsInv(w, w');
    case Toggle(_) => StepEdits(w, e, w'); EditKeepsInv(w, w');
    case MoveUp(_) => if w'.rows != w.rows { StepMoves(w, e, w'); MoveKeepsInv(w, w'); }
    case MoveDown(_) => if w'.rows != w.rows { StepMoves(w, e, w'); MoveKeepsInv(w, w'); }
    case Apply(calls) => ApplyKeepsInv(w, calls, w');
    case Sync(_, now) => SyncKeepsInv(w, now, w');
    case Reconcile(_, now) => ReconcileKeepsInv(w, now, w');
    case External =>
  }

  // ---------------------------------------------------------------- at most one successful add per row

  /** In this event `add_rule` succeeds for row `id`. */
  ghost predicate Adds(w: World, e: Event, id: RowId) {
    e.Apply? && id in w.rows && IsCreate(w.rows[id]) && id !in e.calls.failing
  }

  /** The row exists or existed, and does not carry a placeholder any more. */
  ghost predicate Spent(w: World, id: RowId) {
    id < w.nextId && (id in w.rows ==> !IsPlaceholder(w.rows[id].uuid))
  }

  lemma AddsSpends(w: World, e: Event, w': World, id: RowId)
    requires Inv(w) && Next(w, e, w') && Adds(w, e, id)
    ensures Spent(w', id)
  {
    if id in w'.rows {
      ApplyRow(w, e.calls, w', id);
    }
  }

  lemma SpentStays(w: World, e: Event, w': World, id: RowId)
    requires Inv(w) && Next(w, e, w') && Spent(w, id)
    ensures Spent(w', id)
  {
    match e
    case MoveUp(_) => if w'.rows != w.rows { StepMoves(w, e, w'); MoveKeepsInv(w, w'); }
    case MoveDown(_) => if w'.rows != w.rows { StepMoves(w, e, w'); MoveKeepsInv(w, w'); }
    case Update(_, _) => StepEdits(w, e, w');
    case Delete(_) => StepEdits(w, e, w');
    case Toggle(_) => StepEdits(w, e, w');
    case Apply(calls) => if id in w'.rows { ApplyRow(w, calls, w', id); }
    case Sync(_, now) => SpentStaysInSync(w, now, w', id);
    case _ =>
  }

  lemma SpentStaysInSync(w: World, now: nat, w': World, id: RowId)
    requires Inv(w) && SyncStep(w, now, w') && RemoteSame(w, w') && Spent(w, id)
    ensures Spent(w', id)
  {
    if !(w'.rows == w.rows && w'.nextId >= w.nextId) {
      var result :| Completed(w.rows, w.nextId, w.staged, now, w'.rows, w'.nextId, result);
      if id in w'.rows {
        RowMirrors(w.rows, w.nextId, w.staged, now, w'.rows, w'.nextId, result, id);
      }
    }
  }

  /** A history: states joined by events. */
  ghost predicate Run(ws: seq<World>, es: seq<Event>) {
    |ws| == |es| + 1 && Inv(ws[0]) && forall i :: 0 <= i < |es| ==> StepAt(ws, es, i)
  }

  ghost predicate StepAt(ws: seq<World>, es: seq<Event>, i: nat)
    requires i < |es| && |ws| == |es| + 1
  {
    Next(ws[i], es[i], ws[i + 1])
  }

  lemma {:induction false} RunKeepsInv(ws: seq<World>, es: seq<Event>, i: nat)
    requires Run(ws, es) && i < |ws|
    ensures Inv(ws[i])
  {
    hide Next, Inv;
    if i > 0 {
      RunKeepsInv(ws, es, i - 1);
      assert StepAt(ws, es, i - 1);
      NextKeepsInv(ws[i - 1], es[i - 1], ws[i]);
    }
  }

  lemma {:induction false} RunKeepsSpent(ws: seq<World>, es: seq<Event>, i: nat, j: nat, id: RowId)
    requires Run(ws, es) && i <= j < |ws| && Spent(ws[i], id)
    ensures Spent(ws[j], id)
    decreases j - i
  {
    if i < j {
      SpentStaysAt(ws, es, i, id);
      RunKeepsSpent(ws, es, i + 1, j, id);
    }
  }

  lemma SpentStaysAt(ws: seq<World>, es: seq<Event>, i: nat, id: RowId)
    requires Run(ws, es) && i < |es| && Spent(ws[i], id)
    ensures Spent(ws[i + 1], id)
  {
    RunKeepsInv(ws, es, i);
    assert StepAt(ws, es, i);
    SpentStays(ws[i], es[i], ws[i + 1], id);
  }

  lemma AddsSpendsAt(ws: seq<World>, es: seq<Event>, i: nat, id: RowId)
    requires Run(ws, es) && i < |es| && Adds(ws[i], es[i], id)
    ensures Spent(ws[i + 1], id)
  {
    RunKeepsInv(ws, es, i);
    assert StepAt(ws, es, i);
    AddsSpends(ws[i], es[i], ws[i + 1], id);
  }

  /** Over any history a row is added to the appliance successfully at most once, however often
      reloads fail and the row is edited and applied again; and a row that still carries a
      placeholder has never been added. */
  lemma AtMostOneAddPerRow(ws: seq<World>, es: seq<Event>, i: nat, j: nat, id: RowId)
    requires Run(ws, es) && i < j < |ws| && Adds(ws[i], es[i], id)
    ensures id in ws[j].rows ==> !IsPlaceholder(ws[j].rows[id].uuid)
    ensures j < |es| ==> !Adds(ws[j], es[j], id)
  {
    AddsSpendsAt(ws, es, i, id);
    RunKeepsSpent(ws, es, i + 1, j, id);
  }

  /** Over any history a placeholder is never on a synced row. */
  lemma PlaceholdersAreNeverSynced(ws: seq<World>, es: seq<Event>, i: nat, id: RowId)
    requires Run(ws, es) && i < |ws| && id in ws[i].rows && IsPlaceholder(ws[i].rows[id].uuid)
    ensures !ws[i].rows[id].status.Synced?
    ensures ws[i].rows[id].uuid !in ws[i].staged.rules && ws[i].rows[id].uuid !in ws[i].live.rules
  {
    RunKeepsInv(ws, es, i);
  }

  // ---------------------------------------------------------------- the code takes these steps

  ghost function WorldOf(db: RuleTable, fw: Firewall): World
    reads db, fw
  {
    World(db.rows, db.nextId, fw.staged, fw.live, fw.issued)
  }

  /** What the environment promises for an event: `uuid4` and the appliance hand out new uuids,
      and the database returns every picked row once. */
  ghost predicate Enabled(w: World, e: Event) {
    match e
    case Create(_, _, placeholder) =>
      |placeholder| >= 8 && placeholder[..8] == "pending-" && placeholder !in Held(w.rows)
    case Apply(calls) =>
      && FreshUuids(w.rows, w.issued, calls)
      && Distinct(calls.queryOrder) && Elements(calls.queryOrder) == PickedIds(w.rows)
    case External => false
    case _ => true
  }

  /** Every handler and task of the code, called on a table and an appliance that satisfy the
      invariant, takes a step of the relation. */
  method Perform(db: RuleTable, fw: Firewall, e: Event)
    requires Inv(WorldOf(db, fw)) && Enabled(WorldOf(db, fw), e)
    modifies db, fw
    ensures Next(old(WorldOf(db, fw)), e, WorldOf(db, fw)) && Inv(WorldOf(db, fw))
  {
    hide RowUpdated, RowMarked, RowToggled;
    ghost var w := WorldOf(db, fw);
    match e {
      case Create(requested, fields, placeholder) =>
        var id := CreateRule(db, requested, fields, placeholder);
      case Update(uuid, fields) =>
        var response := UpdateRule(db, uuid, fields);
      case Delete(uuid) =>
        var response := DeleteRule(db, uuid);
      case Toggle(uuid) =>
        var response := ToggleRule(db, uuid);
      case MoveUp(uuid) =>
        var response := MoveRuleUp(db, uuid);
      case MoveDown(uuid) =>
        var response := MoveRuleDown(db, uuid);
      case Apply(calls) =>
        var report := ApplyAllPendingRules(db, fw, calls);
      case Sync(listFails, now) =>
        var result := SyncFirewallRules(db, fw, listFails, now);
      case Reconcile(listFails, now) =>
        var result := ReconcileFirewallRules(db, fw, listFails, now);
    }
    NextKeepsInv(w, e, WorldOf(db, fw));
  }
}
