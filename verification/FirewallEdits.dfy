/** What the steps of a history do to the sequences of the rules and to rows marked for deletion. */
module FirewallEdits {
  import opened Text
  import opened RuleRecord
  import opened RuleOrder
  import opened FirewallModel
  import opened FirewallApply
  import opened FirewallSync
  import opened SyncProperties
  import opened FirewallReconcile
  import opened FirewallApi
  import opened ApplyProperties
  import opened FirewallRuns

  // ---------------------------------------------------------------- distinct sequences

  /** No row but that of the uuid has the sequence. */
  ghost predicate SequenceFree(rows: map<RowId, Row>, uuid: Uuid, sequence: int) {
    forall id :: id in rows && rows[id].uuid != uuid ==> rows[id].fields.sequence != sequence
  }

  /** When an API step keeps distinct sequences distinct: a creation and an update must bring a
      sequence that no other row has; all other steps always do. */
  ghost predicate KeepsSequences(rows: map<RowId, Row>, e: Event) {
    match e
    case Create(requested, _, _) => NewSequence(rows, requested) !in Sequences(rows).Values
    case Update(uuid, fields) => uuid in Held(rows) ==> SequenceFree(rows, uuid, fields.sequence)
    case _ => true
  }

  predicate IsApi(e: Event) {
    e.Create? || e.Update? || e.Delete? || e.Toggle? || e.MoveUp? || e.MoveDown?
  }

  lemma CreateSequences(rows: map<RowId, Row>, id: RowId, e: Event, after: map<RowId, Row>)
    requires e.Create? && SequencesDistinct(rows) && id !in rows && CreateStep(rows, id, e, after)
    ensures SequencesDistinct(after) <==> NewSequence(rows, e.requested) !in Sequences(rows).Values
  {
    var n := NewSequence(rows, e.requested);
    assert after[id].fields.sequence == n;
    if n in Sequences(rows).Values {
      var other :| other in Sequences(rows) && Sequences(rows)[other] == n;
      assert after[other].fields.sequence == n && other != id;
    } else {
      forall other | other in rows
        ensures rows[other].fields.sequence != n
      {
        assert Sequences(rows)[other] in Sequences(rows).Values;
      }
    }
  }

  lemma UpdateSequences(rows: map<RowId, Row>, uuid: Uuid, fields: Fields, after: map<RowId, Row>)
    requires UuidsDistinct(rows) && SequencesDistinct(rows) && uuid in Held(rows)
    requires RowEdited(rows, uuid, r => Edited(r, fields), after)
    ensures SequencesDistinct(after) <==> SequenceFree(rows, uuid, fields.sequence)
  {
    var id :| id in rows && rows[id].uuid == uuid && after == rows[id := Edited(rows[id], fields)];
    if other :| other in rows && rows[other].uuid != uuid && rows[other].fields.sequence == fields.sequence {
      assert after[other].fields.sequence == after[id].fields.sequence && other != id;
    }
  }

  lemma SameSequences(rows: map<RowId, Row>, uuid: Uuid, edit: Row -> Row, after: map<RowId, Row>)
    requires SequencesDistinct(rows) && RowEdited(rows, uuid, edit, after)
    requires forall r :: edit(r).fields.sequence == r.fields.sequence
    ensures SequencesDistinct(after)
  {
  }

  lemma MoveSequences(w: World, e: Event, w': World)
    requires SequencesDistinct(w.rows) && Next(w, e, w') && (e.MoveUp? || e.MoveDown?)
    ensures SequencesDistinct(w'.rows)
  {
    if w'.rows != w.rows {
      StepMoves(w, e, w');
      var ids, k: nat :| SwapsAt(w.rows, ids, k, w'.rows);
      SwapEffect(w.rows, ids, k, w'.rows);
    }
  }

  /** Exactly which API steps keep distinct sequences distinct. */
  lemma SequencesAfterEdit(w: World, e: Event, w': World)
    requires Inv(w) && Next(w, e, w') && IsApi(e) && SequencesDistinct(w.rows)
    ensures SequencesDistinct(w'.rows) <==> KeepsSequences(w.rows, e)
  {
    match e
    case Create(_, _, _) => CreateSequences(w.rows, w.nextId, e, w'.rows);
    case Update(uuid, fields) => if uuid in Held(w.rows) { UpdateSequences(w.rows, uuid, fields, w'.rows); }
    case Delete(uuid) => SameSequences(w.rows, uuid, Marked, w'.rows);
    case Toggle(uuid) => SameSequences(w.rows, uuid, Toggled, w'.rows);
    case _ => MoveSequences(w, e, w');
  }

  /** An apply drops rows and changes no columns. */
  lemma SequencesAfterApply(w: World, calls: Calls, w': World)
    requires SequencesDistinct(w.rows) && ApplyStep(w, calls, w')
    ensures SequencesDistinct(w'.rows)
  {
    forall id | id in w'.rows
      ensures id in w.rows && w'.rows[id].fields == w.rows[id].fields
    {
      RowFate(w.rows, w.staged, w.live, calls, w'.rows, w'.staged, w'.live, id);
    }
  }

  lemma SequencesAfterReconcile(w: World, now: nat, w': World)
    requires Inv(w) && SequencesDistinct(w.rows) && ReconcileStep(w, now, w')
    ensures SequencesDistinct(w'.rows)
  {
    if !((w'.rows == w.rows || w'.rows == map[]) && w'.nextId == w.nextId) {
      var sorted :| Rebuilt(w.staged, now, w.nextId, w'.rows, w'.nextId, sorted);
      ReconcileEstablishesOrder(w.staged, now, w.nextId, w'.rows, w'.nextId, sorted);
    }
  }

  /** The sequences the appliance lists for the rules that a sync mirrors, those not held by an
      unsynced row, differ from each other and from those of the unsynced rows, which differ as
      well. */
  ghost predicate PullsDistinct(rows: map<RowId, Row>, listed: map<Uuid, Fields>) {
    && (forall u, v :: u in listed && v in listed && u != v && !HeldUnsynced(rows, u) && !HeldUnsynced(rows, v) ==>
          listed[u].sequence != listed[v].sequence)
    && (forall u, id :: u in listed && !HeldUnsynced(rows, u) && id in rows && !rows[id].status.Synced? ==>
          listed[u].sequence != rows[id].fields.sequence)
    && (forall i, j :: i in rows && j in rows && i != j && !rows[i].status.Synced? && !rows[j].status.Synced? ==>
          rows[i].fields.sequence != rows[j].fields.sequence)
  }

  /** A row after a sync shows a mirrored rule of the listing, or is an unsynced row of before. */
  ghost predicate Shows(rows: map<RowId, Row>, listed: map<Uuid, Fields>, id: RowId, r: Row) {
    if r.status.Synced? then r.uuid in listed && !HeldUnsynced(rows, r.uuid) && r.fields == listed[r.uuid]
    else id in rows && !rows[id].status.Synced? && r.fields == rows[id].fields
  }

  lemma EachShows(w: World, now: nat, result: SyncResult, w': World, id: RowId)
    requires Inv(w) && Completed(w.rows, w.nextId, w.staged, now, w'.rows, w'.nextId, result) && id in w'.rows
    ensures Shows(w.rows, Listing(w.staged.rules), id, w'.rows[id])
  {
    RowMirrors(w.rows, w.nextId, w.staged, now, w'.rows, w'.nextId, result, id);
    if !w'.rows[id].status.Synced? {
      SyncMirrors(w.rows, w.nextId, w.staged, now, w'.rows, w'.nextId, result);
    }
  }

  /** Every mirrored rule and every unsynced row is there after the sync. */
  lemma EachIsThere(w: World, now: nat, result: SyncResult, w': World)
    requires Inv(w) && Completed(w.rows, w.nextId, w.staged, now, w'.rows, w'.nextId, result)
    ensures UuidsDistinct(w'.rows)
    ensures forall u :: u in Listing(w.staged.rules) && !HeldUnsynced(w.rows, u) ==> HeldSynced(w'.rows, u)
    ensures forall id :: id in w.rows && !w.rows[id].status.Synced? ==> id in w'.rows && !w'.rows[id].status.Synced?
  {
    SyncMirrors(w.rows, w.nextId, w.staged, now, w'.rows, w'.nextId, result);
  }

  /** When the sequences differ after a completed sync, from the table and the listing. */
  lemma SequencesAfterSync(w: World, now: nat, result: SyncResult, w': World)
    requires Inv(w) && Completed(w.rows, w.nextId, w.staged, now, w'.rows, w'.nextId, result)
    ensures SequencesDistinct(w'.rows) <==> PullsDistinct(w.rows, Listing(w.staged.rules))
  {
    var rows, listed, after := w.rows, Listing(w.staged.rules), w'.rows;
    EachIsThere(w, now, result, w');
    forall id | id in after
      ensures Shows(rows, listed, id, after[id])
    {
      EachShows(w, now, result, w', id);
    }
    if PullsDistinct(rows, listed) {
      DistinctOnceShown(rows, listed, after);
    }
    if SequencesDistinct(after) {
      ShownDistinct(rows, listed, after);
    }
  }

  lemma DistinctOnceShown(rows: map<RowId, Row>, listed: map<Uuid, Fields>, after: map<RowId, Row>)
    requires UuidsDistinct(after) && forall id :: id in after ==> Shows(rows, listed, id, after[id])
    requires PullsDistinct(rows, listed)
    ensures SequencesDistinct(after)
  {
    hide HeldUnsynced;
    forall i, j | i in after && j in after && i != j
      ensures after[i].fields.sequence != after[j].fields.sequence
    {
      assert Shows(rows, listed, i, after[i]) && Shows(rows, listed, j, after[j]);
    }
  }

  lemma ShownDistinct(rows: map<RowId, Row>, listed: map<Uuid, Fields>, after: map<RowId, Row>)
    requires forall id :: id in after ==> Shows(rows, listed, id, after[id])
    requires forall u :: u in listed && !HeldUnsynced(rows, u) ==> HeldSynced(after, u)
    requires forall id :: id in rows && !rows[id].status.Synced? ==> id in after && !after[id].status.Synced?
    requires SequencesDistinct(after)
    ensures PullsDistinct(rows, listed)
  {
    hide HeldUnsynced;
    forall u | u in listed && !HeldUnsynced(rows, u)
      ensures exists id :: id in after && after[id].status.Synced? && after[id].uuid == u
                           && after[id].fields == listed[u]
    {
      var id :| id in after && after[id].status.Synced? && after[id].uuid == u;
      assert Shows(rows, listed, id, after[id]);
    }
    forall id | id in rows && !rows[id].status.Synced?
      ensures id in after && !after[id].status.Synced? && after[id].fields == rows[id].fields
    {
      assert Shows(rows, listed, id, after[id]);
    }
  }

  /** A step that keeps distinct sequences: every API step that brings no taken sequence, every
      sync that pulls none, every apply, every reconcile and every change on the appliance. */
  ghost predicate Tidy(w: World, e: Event) {
    && KeepsSequences(w.rows, e)
    && (e.Sync? ==> PullsDistinct(w.rows, Listing(w.staged.rules)))
  }

  lemma SequencesAfterStep(w: World, e: Event, w': World)
    requires Inv(w) && Next(w, e, w') && Tidy(w, e) && SequencesDistinct(w.rows)
    ensures SequencesDistinct(w'.rows)
  {
    hide Inv, ApplyStep, ReconcileStep, RowEdited, SequencesDistinct, PullsDistinct, Completed;
    match e
    case Sync(_, now) =>
      if w'.rows != w.rows {
        var result :| Completed(w.rows, w.nextId, w.staged, now, w'.rows, w'.nextId, result);
        SequencesAfterSync(w, now, result, w');
      }
    case Apply(calls) => SequencesAfterApply(w, calls, w');
    case Reconcile(_, now) => SequencesAfterReconcile(w, now, w');
    case External =>
    case _ => SequencesAfterEdit(w, e, w');
  }

  /** Over any history of such steps the sequences stay distinct, so that every move exchanges
      two rules. */
  lemma {:induction false} SequencesStayDistinct(ws: seq<World>, es: seq<Event>, i: nat)
    requires FirewallRuns.Run(ws, es) && SequencesDistinct(ws[0].rows) && i < |ws|
    requires forall j :: 0 <= j < |es| ==> Tidy(ws[j], es[j])
    ensures SequencesDistinct(ws[i].rows)
  {
    hide Next, Inv, SequencesDistinct, Tidy;
    if i > 0 {
      SequencesStayDistinct(ws, es, i - 1);
      RunKeepsInv(ws, es, i - 1);
      assert StepAt(ws, es, i - 1) && Tidy(ws[i - 1], es[i - 1]);
      SequencesAfterStep(ws[i - 1], es[i - 1], ws[i]);
    }
  }

  /** A default sequence can be taken: after the first of two rules has been deleted, the next
      rule gets the sequence of the second, and moving one of them past the other then changes
      no sequence. */
  lemma DefaultSequenceCollides(f: Fields, e: Event, after: map<RowId, Row>, ids: seq<RowId>, k: nat,
                                moved: map<RowId, Row>)
    requires var rows := map[2 := Row("b", f.(sequence := 200), Synced, None, None)];
             e.Create? && e.requested == None && CreateStep(rows, 3, e, after)
    requires SwapsAt(after, ids, k, moved)
    ensures after[3].fields.sequence == after[2].fields.sequence == 200 && !SequencesDistinct(after)
    ensures Sequences(moved) == Sequences(after)
  {
    assert after.Keys == {2, 3};
    MoveWithTieMovesNothing(after, ids, k, moved);
  }

  // ---------------------------------------------------------------- cancelled deletions

  /** Positions `k` and `k + 1` of the listing, with the row of the uuid to be moved up or down. */
  ghost predicate PairAt(rows: map<RowId, Row>, uuid: Uuid, up: bool, ids: seq<RowId>, k: nat) {
    && IsSequenceOrder(rows, ids) && k + 1 < |ids| && ids[k] in rows && ids[k + 1] in rows
    && rows[if up then ids[k + 1] else ids[k]].uuid == uuid
  }

  ghost predicate InPair(ids: seq<RowId>, k: nat, id: RowId) {
    k + 1 < |ids| && (id == ids[k] || id == ids[k + 1])
  }

  /** The row is the one to be moved, or the neighbour it trades places with. */
  ghost predicate Trades(rows: map<RowId, Row>, uuid: Uuid, up: bool, id: RowId) {
    exists ids, k: nat :: PairAt(rows, uuid, up, ids, k) && InPair(ids, k, id)
  }

  /** The API steps that turn a row marked for deletion back to pending: an update or a toggle
      of it, and a move of it or past it. */
  ghost predicate Cancels(rows: map<RowId, Row>, e: Event, id: RowId)
    requires id in rows
  {
    match e
    case Update(uuid, _) => rows[id].uuid == uuid
    case Toggle(uuid) => rows[id].uuid == uuid
    case MoveUp(uuid) => Trades(rows, uuid, true, id)
    case MoveDown(uuid) => Trades(rows, uuid, false, id)
    case _ => false
  }

  lemma EditCancels(rows: map<RowId, Row>, uuid: Uuid, edit: Row -> Row, after: map<RowId, Row>, id: RowId)
    requires UuidsDistinct(rows) && id in rows && rows[id].status.PendingDelete? && RowEdited(rows, uuid, edit, after)
    requires forall r :: edit(r).status.Pending?
    ensures id in after
    ensures after[id] == if rows[id].uuid == uuid then edit(rows[id]) else rows[id]
  {
    if rows[id].uuid == uuid {
      assert uuid in Held(rows);
    }
  }

  /** A move that took place exchanges the pair the listing shows. */
  lemma MoveCancels(rows: map<RowId, Row>, uuid: Uuid, up: bool, after: map<RowId, Row>, id: RowId)
    requires UuidsDistinct(rows) && SequencesDistinct(rows) && id in rows && rows[id].status.PendingDelete?
    requires if up then MovedUp(rows, uuid, after) else MovedDown(rows, uuid, after)
    ensures id in after && (after[id].status.Pending? <==> Trades(rows, uuid, up, id))
    ensures !Trades(rows, uuid, up, id) ==> after[id] == rows[id]
  {
    var ids, k := PairOf(rows, uuid, up, after);
    PairStatus(rows, ids, k, after, id);
    if Trades(rows, uuid, up, id) {
      SamePair(rows, uuid, up, id, ids, k);
    } else {
      assert !InPair(ids, k, id);
    }
  }

  lemma PairOf(rows: map<RowId, Row>, uuid: Uuid, up: bool, after: map<RowId, Row>) returns (ids: seq<RowId>, k: nat)
    requires if up then MovedUp(rows, uuid, after) else MovedDown(rows, uuid, after)
    ensures SwapsAt(rows, ids, k, after) && PairAt(rows, uuid, up, ids, k)
  {
    if up {
      ids, k :| SwapsAt(rows, ids, k, after) && rows[ids[k + 1]].uuid == uuid;
    } else {
      ids, k :| SwapsAt(rows, ids, k, after) && rows[ids[k]].uuid == uuid;
    }
  }

  lemma PairStatus(rows: map<RowId, Row>, ids: seq<RowId>, k: nat, after: map<RowId, Row>, id: RowId)
    requires SwapsAt(rows, ids, k, after) && id in rows
    ensures id in after && (InPair(ids, k, id) ==> after[id].status.Pending?)
    ensures !InPair(ids, k, id) ==> after[id] == rows[id]
  {
    SequenceIds(rows, ids, k);
  }

  lemma SamePair(rows: map<RowId, Row>, uuid: Uuid, up: bool, id: RowId, ids: seq<RowId>, k: nat)
    requires UuidsDistinct(rows) && SequencesDistinct(rows) && Trades(rows, uuid, up, id)
    requires PairAt(rows, uuid, up, ids, k)
    ensures InPair(ids, k, id)
  {
    var ids2, k2: nat :| PairAt(rows, uuid, up, ids2, k2) && InPair(ids2, k2, id);
    SequenceOrderIsUnique(rows, ids, ids2);
    SamePlace(rows, uuid, ids, if up then k + 1 else k, if up then k2 + 1 else k2);
  }

  lemma SamePlace(rows: map<RowId, Row>, uuid: Uuid, ids: seq<RowId>, i: nat, j: nat)
    requires UuidsDistinct(rows) && Distinct(ids) && i < |ids| && j < |ids| && ids[i] in rows && ids[j] in rows
    requires rows[ids[i]].uuid == uuid && rows[ids[j]].uuid == uuid
    ensures i == j
  {
    assert ids[i] == ids[j];
  }

  /** Exactly which API steps cancel a deletion that has not been applied; the listing must be
      free of ties for the moves. A move that is refused changes nothing. */
  lemma DeletionCancelled(w: World, e: Event, w': World, id: RowId)
    requires Inv(w) && Next(w, e, w') && IsApi(e) && id in w.rows && w.rows[id].status.PendingDelete?
    requires e.MoveUp? || e.MoveDown? ==> SequencesDistinct(w.rows) && w'.rows != w.rows
    ensures id in w'.rows && w'.rows[id].uuid == w.rows[id].uuid
    ensures w'.rows[id].status == if Cancels(w.rows, e, id) then Pending else PendingDelete
  {
    match e
    case Create(_, _, _) =>
    case Update(uuid, fields) => EditCancels(w.rows, uuid, r => Edited(r, fields), w'.rows, id);
    case Toggle(uuid) => EditCancels(w.rows, uuid, Toggled, w'.rows, id);
    case Delete(uuid) =>
    case MoveUp(uuid) => MoveKept(w, e, w', id); MoveCancels(w.rows, uuid, true, w'.rows, id);
    case MoveDown(uuid) => MoveKept(w, e, w', id); MoveCancels(w.rows, uuid, false, w'.rows, id);
  }

  lemma MoveKept(w: World, e: Event, w': World, id: RowId)
    requires Inv(w) && Next(w, e, w') && (e.MoveUp? || e.MoveDown?) && w'.rows != w.rows && id in w.rows
    ensures id in w'.rows && w'.rows[id].uuid == w.rows[id].uuid
  {
    StepMoves(w, e, w');
    MoveKeepsInv(w, w');
  }

  /** A rule whose deletion was cancelled is pushed instead of deleted by the next successful
      apply, and is live afterwards. */
  lemma CancelledDeletionStaysLive(w: World, e: Event, w1: World, calls: Calls, w2: World, id: RowId)
    requires Inv(w) && Next(w, e, w1) && IsApi(e) && id in w.rows && w.rows[id].status.PendingDelete?
    requires e.MoveUp? || e.MoveDown? ==> SequencesDistinct(w.rows) && w1.rows != w.rows
    requires Cancels(w.rows, e, id)
    requires ApplyStep(w1, calls, w2) && AllSucceed(w1.rows, w1.staged.rules.Keys, calls)
    ensures id in w2.rows && w2.rows[id].status.Synced? && w2.rows[id].uuid in w2.live.rules
  {
    DeletionCancelled(w, e, w1, id);
    SuccessfulApply(w1.rows, w1.staged, w1.live, w1.issued, calls, w2.rows, w2.staged, w2.live);
  }

  // ---------------------------------------------------------------- from the edit to the appliance

  /** After the next fully successful apply the rule is live with exactly the columns its row had. */
  ghost predicate Enforced(w: World, id: RowId, fields: Fields) {
    && id in w.rows && w.rows[id].status.Synced? && w.rows[id].fields == fields
    && w.rows[id].uuid in w.live.rules && Sends(w.live.rules[w.rows[id].uuid], fields)
  }

  lemma PendingIsEnforced(w: World, calls: Calls, w': World, id: RowId)
    requires Inv(w) && ApplyStep(w, calls, w') && AllSucceed(w.rows, w.staged.rules.Keys, calls)
    requires id in w.rows && w.rows[id].status.Pending?
    ensures Enforced(w', id, w.rows[id].fields)
  {
    SuccessfulApply(w.rows, w.staged, w.live, w.issued, calls, w'.rows, w'.staged, w'.live);
  }

  lemma UpdateIsEnforced(w: World, uuid: Uuid, fields: Fields, w1: World, calls: Calls, w2: World, id: RowId)
    requires Inv(w) && Next(w, Update(uuid, fields), w1) && id in w.rows && w.rows[id].uuid == uuid
    requires ApplyStep(w1, calls, w2) && AllSucceed(w1.rows, w1.staged.rules.Keys, calls)
    ensures Enforced(w2, id, fields)
  {
    RowByRow(w.rows, uuid, fields, w1.rows);
    NextKeepsInv(w, Update(uuid, fields), w1);
    PendingIsEnforced(w1, calls, w2, id);
  }

  /** A toggle switches the live rule off if it was enabled, and on otherwise. */
  lemma ToggleIsEnforced(w: World, uuid: Uuid, w1: World, calls: Calls, w2: World, id: RowId)
    requires Inv(w) && Next(w, Toggle(uuid), w1) && id in w.rows && w.rows[id].uuid == uuid
    requires ApplyStep(w1, calls, w2) && AllSucceed(w1.rows, w1.staged.rules.Keys, calls)
    ensures Enforced(w2, id, w1.rows[id].fields)
    ensures w2.live.rules[w2.rows[id].uuid].enabled ==
            Text(if w.rows[id].fields.enabled == Some("1") then "0" else "1")
  {
    RowByRow(w.rows, uuid, w.rows[id].fields, w1.rows);
    NextKeepsInv(w, Toggle(uuid), w1);
    PendingIsEnforced(w1, calls, w2, id);
  }

  /** A new rule goes live with the columns given, under the requested sequence or the next
      hundred after the rules there are. */
  lemma CreationIsEnforced(w: World, e: Event, w1: World, calls: Calls, w2: World, sequence: int)
    requires Inv(w) && e.Create? && Next(w, e, w1)
    requires ApplyStep(w1, calls, w2) && AllSucceed(w1.rows, w1.staged.rules.Keys, calls)
    requires if e.requested in {None, Some(0)} then sequence == 100 * (|w.rows| + 1) else Some(sequence) == e.requested
    ensures Enforced(w2, w.nextId, e.fields.(sequence := sequence))
  {
    CreatedRow(w, e, w1, sequence);
    NextKeepsInv(w, e, w1);
    hide Inv, Next, ApplyStep, AllSucceed, Enforced;
    PendingIsEnforced(w1, calls, w2, w.nextId);
  }

  lemma CreatedRow(w: World, e: Event, w1: World, sequence: int)
    requires e.Create? && Next(w, e, w1)
    requires if e.requested in {None, Some(0)} then sequence == 100 * (|w.rows| + 1) else Some(sequence) == e.requested
    ensures w.nextId in w1.rows && w1.rows[w.nextId].status.Pending?
    ensures w1.rows[w.nextId].fields == e.fields.(sequence := sequence)
  {
  }
}
