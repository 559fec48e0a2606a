/** The rule handlers of the firewall API: every one edits rows of the table only. */
module FirewallApi {
  import opened Text
  import opened RuleRecord
  import opened RuleOrder
  import opened FirewallModel
  import opened FirewallSync

  datatype Response = Saved | NotFound | AtEdge

  // ---------------------------------------------------------------- single-row edits

  /** A missing or zero sequence is replaced by one hundred times the new row count. */
  function NewSequence(rows: map<RowId, Row>, requested: Option<int>): int {
    if requested.None? || requested.value == 0 then (|rows| + 1) * 100 else requested.value
  }

  function Edited(r: Row, fields: Fields): Row {
    r.(fields := fields, status := Pending, error := None)
  }

  function Toggled(r: Row): Row {
    r.(fields := r.fields.(enabled := Some(if r.fields.enabled == Some("1") then "0" else "1")), status := Pending)
  }

  function Marked(r: Row): Row {
    r.(status := PendingDelete)
  }

  /** The row of the uuid is edited; without such a row nothing changes. */
  ghost predicate RowEdited(rows: map<RowId, Row>, uuid: Uuid, edit: Row -> Row, after: map<RowId, Row>) {
    if uuid in Held(rows) then exists id :: id in rows && rows[id].uuid == uuid && after == rows[id := edit(rows[id])]
    else after == rows
  }

  /** The rows of other uuids are as they were, and no row comes or goes. */
  ghost predicate OthersSame(rows: map<RowId, Row>, uuid: Uuid, after: map<RowId, Row>) {
    after.Keys == rows.Keys && forall id :: id in rows && rows[id].uuid != uuid ==> after[id] == rows[id]
  }

  /** The row of the uuid has the given columns, is pending and has no error. */
  ghost predicate RowUpdated(rows: map<RowId, Row>, uuid: Uuid, fields: Fields, after: map<RowId, Row>) {
    && OthersSame(rows, uuid, after)
    && forall id :: id in rows && rows[id].uuid == uuid ==>
         after[id] == Row(uuid, fields, Pending, None, rows[id].syncedAt)
  }

  /** The row of the uuid is marked and otherwise as it was. */
  ghost predicate RowMarked(rows: map<RowId, Row>, uuid: Uuid, after: map<RowId, Row>) {
    && OthersSame(rows, uuid, after)
    && forall id :: id in rows && rows[id].uuid == uuid ==>
         after[id] == Row(uuid, rows[id].fields, PendingDelete, rows[id].error, rows[id].syncedAt)
  }

  /** The row of the uuid is pending, enabled exactly when it was not, and otherwise as it was. */
  ghost predicate RowToggled(rows: map<RowId, Row>, uuid: Uuid, after: map<RowId, Row>) {
    && OthersSame(rows, uuid, after)
    && forall id :: id in rows && rows[id].uuid == uuid ==>
         && after[id].uuid == uuid && after[id].status == Pending
         && after[id].error == rows[id].error && after[id].syncedAt == rows[id].syncedAt
         && after[id].fields.enabled in {Some("0"), Some("1")}
         && (after[id].fields.enabled == Some("1") <==> rows[id].fields.enabled != Some("1"))
         && after[id].fields.(enabled := rows[id].fields.enabled) == rows[id].fields
  }

  /** What an edit of the row of the uuid means for each row, for the three kinds of edits. */
  lemma RowByRow(rows: map<RowId, Row>, uuid: Uuid, fields: Fields, after: map<RowId, Row>)
    requires UuidsDistinct(rows)
    ensures RowEdited(rows, uuid, r => Edited(r, fields), after) <==> RowUpdated(rows, uuid, fields, after)
    ensures RowEdited(rows, uuid, Marked, after) <==> RowMarked(rows, uuid, after)
    ensures RowEdited(rows, uuid, Toggled, after) <==> RowToggled(rows, uuid, after)
  {
    hide RowUpdated, RowMarked, RowToggled;
    EditedRowByRow(rows, uuid, r => Edited(r, fields), after);
    EditedRowByRow(rows, uuid, Marked, after);
    EditedRowByRow(rows, uuid, Toggled, after);
    KindsOfEdits(rows, uuid, fields, after);
  }

  ghost predicate RowIs(rows: map<RowId, Row>, uuid: Uuid, edit: Row -> Row, after: map<RowId, Row>) {
    OthersSame(rows, uuid, after) && forall id :: id in rows && rows[id].uuid == uuid ==> after[id] == edit(rows[id])
  }

  lemma EditedRowByRow(rows: map<RowId, Row>, uuid: Uuid, edit: Row -> Row, after: map<RowId, Row>)
    requires UuidsDistinct(rows)
    ensures RowEdited(rows, uuid, edit, after) <==> RowIs(rows, uuid, edit, after)
  {
    if uuid in Held(rows) {
      var id :| id in rows && rows[id].uuid == uuid;
      assert OthersSame(rows, uuid, after) ==> after == rows[id := after[id]];
    } else {
      assert forall id :: id in rows ==> rows[id].uuid in Held(rows);
      assert OthersSame(rows, uuid, after) ==> after == rows;
    }
  }

  lemma KindsOfEdits(rows: map<RowId, Row>, uuid: Uuid, fields: Fields, after: map<RowId, Row>)
    ensures RowIs(rows, uuid, r => Edited(r, fields), after) <==> RowUpdated(rows, uuid, fields, after)
    ensures RowIs(rows, uuid, Marked, after) <==> RowMarked(rows, uuid, after)
    ensures RowIs(rows, uuid, Toggled, after) <==> RowToggled(rows, uuid, after)
  {
  }

  /** `query(...).filter(uuid == uuid).first()` */
  method FindByUuid(db: RuleTable, uuid: Uuid) returns (found: Option<RowId>)
    requires UuidsDistinct(db.rows)
    ensures found.None? <==> uuid !in Held(db.rows)
    ensures found.Some? ==> found.value in db.rows && db.rows[found.value].uuid == uuid
  {
    var index := RowsByUuid(db.rows);
    found := if uuid in index then Some(index[uuid]) else None;
  }

  method CreateRule(db: RuleTable, requested: Option<int>, fields: Fields, placeholder: Uuid) returns (id: RowId)
    requires |placeholder| >= 8 && placeholder[..8] == "pending-" && placeholder !in Held(db.rows)
    modifies db
    ensures id == old(db.nextId) && db.nextId == id + 1
    ensures db.rows == old(db.rows)[id := Row(placeholder, fields.(sequence := NewSequence(old(db.rows), requested)),
                                             Pending, None, None)]
    ensures var sequence := db.rows[id].fields.sequence;
            if requested in {None, Some(0)} then sequence == 100 * (|old(db.rows)| + 1) else Some(sequence) == requested
  {
    id := db.nextId;
    db.rows := db.rows[id := Row(placeholder, fields.(sequence := NewSequence(db.rows, requested)), Pending, None,
                                 None)];
    db.nextId := id + 1;
  }

  method UpdateRule(db: RuleTable, uuid: Uuid, fields: Fields) returns (response: Response)
    requires UuidsDistinct(db.rows)
    modifies db`rows
    ensures response.NotFound? <==> uuid !in Held(old(db.rows))
    ensures RowEdited(old(db.rows), uuid, r => Edited(r, fields), db.rows)
    ensures RowUpdated(old(db.rows), uuid, fields, db.rows)
    ensures !response.AtEdge?
  {
    var found := FindByUuid(db, uuid);
    if found.None? {
      return NotFound;
    }
    db.rows := db.rows[found.value := Edited(db.rows[found.value], fields)];
    RowByRow(old(db.rows), uuid, fields, db.rows);
    response := Saved;
  }

  method DeleteRule(db: RuleTable, uuid: Uuid) returns (response: Response)
    requires UuidsDistinct(db.rows)
    modifies db`rows
    ensures response.NotFound? <==> uuid !in Held(old(db.rows))
    ensures RowEdited(old(db.rows), uuid, Marked, db.rows)
    ensures RowMarked(old(db.rows), uuid, db.rows)
    ensures !response.AtEdge?
  {
    var found := FindByUuid(db, uuid);
    if found.None? {
      return NotFound;
    }
    db.rows := db.rows[found.value := Marked(db.rows[found.value])];
    response := Saved;
  }

  method ToggleRule(db: RuleTable, uuid: Uuid) returns (response: Response)
    requires UuidsDistinct(db.rows)
    modifies db`rows
    ensures response.NotFound? <==> uuid !in Held(old(db.rows))
    ensures RowEdited(old(db.rows), uuid, Toggled, db.rows)
    ensures RowToggled(old(db.rows), uuid, db.rows)
    ensures !response.AtEdge?
  {
    var found := FindByUuid(db, uuid);
    if found.None? {
      return NotFound;
    }
    db.rows := db.rows[found.value := Toggled(db.rows[found.value])];
    response := Saved;
  }

  // ---------------------------------------------------------------- moves

  function WithSequence(r: Row, sequence: int): Row {
    r.(fields := r.fields.(sequence := sequence), status := Pending)
  }

  /** Both rows become pending, whatever they were before, and exchange their sequences. */
  function Swapped(rows: map<RowId, Row>, a: RowId, b: RowId): map<RowId, Row>
    requires a in rows && b in rows
  {
    rows[a := WithSequence(rows[a], rows[b].fields.sequence)][b := WithSequence(rows[b], rows[a].fields.sequence)]
  }

  /** The table lists as `ids`, and the row at position `k` trades places with the one at `k + 1`. */
  ghost predicate SwapsAt(rows: map<RowId, Row>, ids: seq<RowId>, k: nat, after: map<RowId, Row>) {
    && IsSequenceOrder(rows, ids) && k + 1 < |ids|
    && ids[k] in rows && ids[k + 1] in rows && after == Swapped(rows, ids[k], ids[k + 1])
  }

  ghost predicate MovedUp(rows: map<RowId, Row>, uuid: Uuid, after: map<RowId, Row>) {
    exists ids, k: nat :: SwapsAt(rows, ids, k, after) && rows[ids[k + 1]].uuid == uuid
  }

  ghost predicate MovedDown(rows: map<RowId, Row>, uuid: Uuid, after: map<RowId, Row>) {
    exists ids, k: nat :: SwapsAt(rows, ids, k, after) && rows[ids[k]].uuid == uuid
  }

  method PositionOf(db: RuleTable, ids: seq<RowId>, uuid: Uuid) returns (index: nat)
    requires IsSequenceOrder(db.rows, ids) && uuid in Held(db.rows)
    ensures index < |ids| && ids[index] in db.rows && db.rows[ids[index]].uuid == uuid
  {
    ghost var id :| id in db.rows && db.rows[id].uuid == uuid;
    assert id in Elements(ids);
    assert forall i :: 0 <= i < |ids| ==> ids[i] in Elements(ids);
    index := 0;
    while db.rows[ids[index]].uuid != uuid
      invariant index < |ids|
      invariant forall i :: 0 <= i < index ==> db.rows[ids[i]].uuid != uuid
      decreases |ids| - index
    {
      index := index + 1;
      assert id in ids;
    }
  }

  method MoveRuleUp(db: RuleTable, uuid: Uuid) returns (response: Response)
    requires UuidsDistinct(db.rows)
    modifies db`rows
    ensures response.NotFound? <==> uuid !in Held(old(db.rows))
    ensures !response.Saved? ==> db.rows == old(db.rows)
    ensures response.Saved? ==> MovedUp(old(db.rows), uuid, db.rows)
    ensures response.AtEdge? ==> exists ids :: IsSequenceOrder(old(db.rows), ids) && ids != [] && ids[0] in old(db.rows)
                                               && old(db.rows)[ids[0]].uuid == uuid
  {
    var ids := db.BySequence();
    if uuid !in Held(db.rows) {
      return NotFound;
    }
    var index := PositionOf(db, ids, uuid);
    if index == 0 {
      return AtEdge;
    }
    var a, b := ids[index], ids[index - 1];
    SequenceIds(db.rows, ids, index - 1);
    SwapIsSymmetric(db.rows, b, a);
    db.rows := Swapped(db.rows, a, b);
    assert SwapsAt(old(db.rows), ids, index - 1, db.rows);
    response := Saved;
  }

  method MoveRuleDown(db: RuleTable, uuid: Uuid) returns (response: Response)
    requires UuidsDistinct(db.rows)
    modifies db`rows
    ensures response.NotFound? <==> uuid !in Held(old(db.rows))
    ensures !response.Saved? ==> db.rows == old(db.rows)
    ensures response.Saved? ==> MovedDown(old(db.rows), uuid, db.rows)
    ensures response.AtEdge? ==>
              exists ids :: IsSequenceOrder(old(db.rows), ids) && ids != [] && ids[|ids| - 1] in old(db.rows)
                            && old(db.rows)[ids[|ids| - 1]].uuid == uuid
  {
    var ids := db.BySequence();
    if uuid !in Held(db.rows) {
      return NotFound;
    }
    var index := PositionOf(db, ids, uuid);
    if index == |ids| - 1 {
      return AtEdge;
    }
    SequenceIds(db.rows, ids, index);
    var a, b := ids[index], ids[index + 1];
    db.rows := Swapped(db.rows, a, b);
    assert SwapsAt(old(db.rows), ids, index, db.rows);
    response := Saved;
  }

  lemma SequenceIds(rows: map<RowId, Row>, ids: seq<RowId>, k: nat)
    requires IsSequenceOrder(rows, ids) && k + 1 < |ids|
    ensures ids[k] in rows && ids[k + 1] in rows && ids[k] != ids[k + 1]
  {
    assert ids[k] in Elements(ids) && ids[k + 1] in Elements(ids);
  }

  lemma SwapIsSymmetric(rows: map<RowId, Row>, a: RowId, b: RowId)
    requires a in rows && b in rows && a != b
    ensures Swapped(rows, a, b) == Swapped(rows, b, a)
  {
  }

  // ---------------------------------------------------------------- what moves preserve

  ghost predicate SequencesDistinct(rows: map<RowId, Row>) {
    forall i, j :: i in rows && j in rows && i != j ==> rows[i].fields.sequence != rows[j].fields.sequence
  }

  function Sequences(rows: map<RowId, Row>): map<RowId, int> {
    map id | id in rows :: rows[id].fields.sequence
  }

  /** `ids` with positions `k` and `k + 1` exchanged. */
  function Transposed(ids: seq<RowId>, k: nat): seq<RowId>
    requires k + 1 < |ids|
  {
    ids[k := ids[k + 1]][k + 1 := ids[k]]
  }

  /** With distinct sequences there is only one way to list the table. */
  lemma {:induction false} SequenceOrderIsUnique(rows: map<RowId, Row>, a: seq<RowId>, b: seq<RowId>)
    requires SequencesDistinct(rows) && IsSequenceOrder(rows, a) && IsSequenceOrder(rows, b)
    ensures a == b
  {
    SameLength(a, b);
    if a != b {
      var k := FirstDifference(a, b);
      assert a[k] in Elements(b) && b[k] in Elements(a);
      var i, j := IndexOf(b, a[k]), IndexOf(a, b[k]);
      assert false;
    }
  }

  lemma {:induction false} FirstDifference(a: seq<RowId>, b: seq<RowId>) returns (k: nat)
    requires |a| == |b| && a != b
    ensures k < |a| && a[k] != b[k]
    ensures forall i :: 0 <= i < k ==> a[i] == b[i]
  {
    if a[0] != b[0] {
      k := 0;
    } else {
      assert a == [a[0]] + a[1..] && b == [b[0]] + b[1..];
      k := FirstDifference(a[1..], b[1..]);
      k := k + 1;
    }
  }

  lemma SameLength(a: seq<RowId>, b: seq<RowId>)
    requires Distinct(a) && Distinct(b) && Elements(a) == Elements(b)
    ensures |a| == |b|
  {
    DistinctSize(a);
    DistinctSize(b);
  }

  lemma TransposedElements(ids: seq<RowId>, k: nat)
    requires k + 1 < |ids|
    ensures Elements(Transposed(ids, k)) == Elements(ids) && multiset(Transposed(ids, k)) == multiset(ids)
    ensures Distinct(ids) ==> Distinct(Transposed(ids, k))
  {
    var t := Transposed(ids, k);
    forall x
      ensures x in t <==> x in ids
    {
      if x in ids {
        var i :| 0 <= i < |ids| && ids[i] == x;
        assert t[if i == k then k + 1 else if i == k + 1 then k else i] == x;
      }
    }
  }

  /** A move exchanges two sequences and changes nothing else but the two statuses. */
  lemma SwapEffect(rows: map<RowId, Row>, ids: seq<RowId>, k: nat, after: map<RowId, Row>)
    requires SwapsAt(rows, ids, k, after)
    ensures ids[k] != ids[k + 1] && after.Keys == rows.Keys
    ensures Sequences(after) == Sequences(rows)[ids[k] := rows[ids[k + 1]].fields.sequence]
                                               [ids[k + 1] := rows[ids[k]].fields.sequence]
    ensures forall id :: id in rows ==> after[id].uuid == rows[id].uuid
    ensures forall id :: id in rows && id != ids[k] && id != ids[k + 1] ==> after[id] == rows[id]
    ensures SequencesDistinct(rows) ==> SequencesDistinct(after)
    ensures Sequences(after).Values == Sequences(rows).Values
  {
    SequenceIds(rows, ids, k);
    var a, b := ids[k], ids[k + 1];
    assert Sequences(after) == Sequences(rows)[a := rows[b].fields.sequence][b := rows[a].fields.sequence];
    SwapKeepsValues(Sequences(rows), a, b);
  }

  lemma SwapKeepsValues(m: map<RowId, int>, a: RowId, b: RowId)
    requires a in m && b in m && a != b
    ensures m[a := m[b]][b := m[a]].Values == m.Values
  {
    var n := m[a := m[b]][b := m[a]];
    forall v | v in m.Values
      ensures v in n.Values
    {
      var k :| k in m && m[k] == v;
      assert n[if k == a then b else if k == b then a else k] == v;
    }
    forall v | v in n.Values
      ensures v in m.Values
    {
      var k :| k in n && n[k] == v;
      assert m[if k == a then b else if k == b then a else k] == v;
    }
  }

  /** On distinct sequences a move is exactly one adjacent transposition of the listing. */
  lemma MoveTransposes(rows: map<RowId, Row>, ids: seq<RowId>, k: nat, after: map<RowId, Row>)
    requires SwapsAt(rows, ids, k, after)
    ensures IsSequenceOrder(after, Transposed(ids, k))
  {
    SwapEffect(rows, ids, k, after);
    TransposedElements(ids, k);
    var t := Transposed(ids, k);
    forall i, j | 0 <= i < j < |t| && t[i] in after && t[j] in after
      ensures after[t[i]].fields.sequence <= after[t[j]].fields.sequence
    {
      TransposedPair(rows, ids, k, after, i);
      TransposedPair(rows, ids, k, after, j);
    }
  }

  /** Position by position the listing shows the same sequences as before. */
  lemma TransposedPair(rows: map<RowId, Row>, ids: seq<RowId>, k: nat, after: map<RowId, Row>, i: nat)
    requires SwapsAt(rows, ids, k, after) && i < |ids|
    ensures ids[i] in rows && Transposed(ids, k)[i] in after
    ensures after[Transposed(ids, k)[i]].fields.sequence == rows[ids[i]].fields.sequence
  {
    SequenceIds(rows, ids, k);
    assert ids[i] in Elements(ids);
  }

  /** The listing changes if and only if the two rows had different sequences. */
  lemma MoveWithTieMovesNothing(rows: map<RowId, Row>, ids: seq<RowId>, k: nat, after: map<RowId, Row>)
    requires SwapsAt(rows, ids, k, after)
    ensures Sequences(after) == Sequences(rows) <==> rows[ids[k]].fields.sequence == rows[ids[k + 1]].fields.sequence
  {
    SwapEffect(rows, ids, k, after);
    assert Sequences(rows)[ids[k]] == rows[ids[k]].fields.sequence;
    assert Sequences(after)[ids[k]] == rows[ids[k + 1]].fields.sequence;
  }

  /** Moving a rule up and then down, or down and then up, restores every sequence. */
  lemma MovesUndoEachOther(rows: map<RowId, Row>, uuid: Uuid, once: map<RowId, Row>, twice: map<RowId, Row>)
    requires UuidsDistinct(rows) && SequencesDistinct(rows)
    requires (MovedUp(rows, uuid, once) && MovedDown(once, uuid, twice))
             || (MovedDown(rows, uuid, once) && MovedUp(once, uuid, twice))
    ensures Sequences(twice) == Sequences(rows)
  {
    if MovedUp(rows, uuid, once) && MovedDown(once, uuid, twice) {
      UpThenDown(rows, uuid, once, twice);
    } else {
      DownThenUp(rows, uuid, once, twice);
    }
  }

  lemma MovedUpAt(rows: map<RowId, Row>, uuid: Uuid, after: map<RowId, Row>) returns (ids: seq<RowId>, k: nat)
    requires MovedUp(rows, uuid, after)
    ensures SwapsAt(rows, ids, k, after) && rows[ids[k + 1]].uuid == uuid
  {
    ids, k :| SwapsAt(rows, ids, k, after) && rows[ids[k + 1]].uuid == uuid;
  }

  lemma MovedDownAt(rows: map<RowId, Row>, uuid: Uuid, after: map<RowId, Row>) returns (ids: seq<RowId>, k: nat)
    requires MovedDown(rows, uuid, after)
    ensures SwapsAt(rows, ids, k, after) && rows[ids[k]].uuid == uuid
  {
    ids, k :| SwapsAt(rows, ids, k, after) && rows[ids[k]].uuid == uuid;
  }

  lemma UpThenDown(rows: map<RowId, Row>, uuid: Uuid, once: map<RowId, Row>, twice: map<RowId, Row>)
    requires UuidsDistinct(rows) && SequencesDistinct(rows)
    requires MovedUp(rows, uuid, once) && MovedDown(once, uuid, twice)
    ensures Sequences(twice) == Sequences(rows)
  {
    var ids, k := MovedUpAt(rows, uuid, once);
    var ids2, k2 := MovedDownAt(once, uuid, twice);
    SwapBack(rows, ids, k, once, ids2, k2, twice, k2);
  }

  lemma DownThenUp(rows: map<RowId, Row>, uuid: Uuid, once: map<RowId, Row>, twice: map<RowId, Row>)
    requires UuidsDistinct(rows) && SequencesDistinct(rows)
    requires MovedDown(rows, uuid, once) && MovedUp(once, uuid, twice)
    ensures Sequences(twice) == Sequences(rows)
  {
    var ids, k := MovedDownAt(rows, uuid, once);
    var ids2, k2 := MovedUpAt(once, uuid, twice);
    SwapBackUp(rows, ids, k, once, ids2, k2, twice);
  }

  /** Only the two rows of a move change position, and they trade theirs. */
  lemma SamePosition(rows: map<RowId, Row>, ids: seq<RowId>, k: nat, once: map<RowId, Row>, ids2: seq<RowId>, p2: nat)
    requires UuidsDistinct(rows) && SequencesDistinct(rows)
    requires SwapsAt(rows, ids, k, once) && IsSequenceOrder(once, ids2)
    requires p2 < |ids2| && ids2[p2] in once
    ensures ids2 == Transposed(ids, k)
    ensures once[ids2[p2]].uuid == rows[ids[k]].uuid ==> p2 == k + 1
    ensures once[ids2[p2]].uuid == rows[ids[k + 1]].uuid ==> p2 == k
  {
    SwapEffect(rows, ids, k, once);
    MoveTransposes(rows, ids, k, once);
    SequenceOrderIsUnique(once, ids2, Transposed(ids, k));
    assert ids2[k] == ids[k + 1] && ids2[k + 1] == ids[k];
  }

  lemma SwapBackUp(rows: map<RowId, Row>, ids: seq<RowId>, k: nat, once: map<RowId, Row>,
                   ids2: seq<RowId>, k2: nat, twice: map<RowId, Row>)
    requires UuidsDistinct(rows) && SequencesDistinct(rows)
    requires SwapsAt(rows, ids, k, once) && SwapsAt(once, ids2, k2, twice)
    requires once[ids2[k2 + 1]].uuid == rows[ids[k]].uuid
    ensures Sequences(twice) == Sequences(rows)
  {
    SwapBack(rows, ids, k, once, ids2, k2, twice, k2 + 1);
  }

  lemma SwapBack(rows: map<RowId, Row>, ids: seq<RowId>, k: nat, once: map<RowId, Row>,
                 ids2: seq<RowId>, k2: nat, twice: map<RowId, Row>, p2: nat)
    requires UuidsDistinct(rows) && SequencesDistinct(rows)
    requires SwapsAt(rows, ids, k, once) && SwapsAt(once, ids2, k2, twice)
    requires (p2 == k2 && once[ids2[p2]].uuid == rows[ids[k + 1]].uuid)
             || (p2 == k2 + 1 && once[ids2[p2]].uuid == rows[ids[k]].uuid)
    ensures Sequences(twice) == Sequences(rows)
  {
    SamePosition(rows, ids, k, once, ids2, p2);
    SwapTwice(rows, ids, k, once, ids2, twice);
  }

  lemma SwapTwice(rows: map<RowId, Row>, ids: seq<RowId>, k: nat, once: map<RowId, Row>, ids2: seq<RowId>,
                  twice: map<RowId, Row>)
    requires SwapsAt(rows, ids, k, once) && SwapsAt(once, ids2, k, twice) && ids2 == Transposed(ids, k)
    ensures Sequences(twice) == Sequences(rows)
  {
    SwapOnSequences(rows, ids, k, once);
    SwapOnSequences(once, ids2, k, twice);
    assert ids2[k] == ids[k + 1] && ids2[k + 1] == ids[k];
  }

  lemma SwapOnSequences(rows: map<RowId, Row>, ids: seq<RowId>, k: nat, after: map<RowId, Row>)
    requires SwapsAt(rows, ids, k, after)
    ensures ids[k] != ids[k + 1] && ids[k] in Sequences(rows) && ids[k + 1] in Sequences(rows)
    ensures Sequences(after) == Sequences(rows)[ids[k] := Sequences(rows)[ids[k + 1]]]
                                               [ids[k + 1] := Sequences(rows)[ids[k]]]
  {
    SwapEffect(rows, ids, k, after);
  }

  // ---------------------------------------------------------------- runs of moves

  ghost predicate MoveStep(before: map<RowId, Row>, after: map<RowId, Row>) {
    exists ids, k: nat :: SwapsAt(before, ids, k, after)
  }

  ghost predicate MoveRun(tables: seq<map<RowId, Row>>) {
    tables != [] && forall i :: 0 <= i < |tables| - 1 ==> MoveStep(tables[i], tables[i + 1])
  }

  /** Any run of moves keeps the rows and their uuids, keeps the sequences distinct, and only
      permutes them among the rows. */
  lemma {:induction false} MovesPermute(tables: seq<map<RowId, Row>>)
    requires MoveRun(tables) && SequencesDistinct(tables[0])
    ensures var last := tables[|tables| - 1];
            && last.Keys == tables[0].Keys && SequencesDistinct(last)
            && Sequences(last).Values == Sequences(tables[0]).Values
            && forall id :: id in last ==> last[id].uuid == tables[0][id].uuid
  {
    if |tables| > 1 {
      var front := tables[..|tables| - 1];
      forall i | 0 <= i < |front| - 1
        ensures MoveStep(front[i], front[i + 1])
      {
        assert MoveStep(tables[i], tables[i + 1]);
      }
      MovesPermute(front);
      var before, last := tables[|tables| - 2], tables[|tables| - 1];
      assert MoveStep(tables[|tables| - 2], tables[|tables| - 2 + 1]);
      var ids, k: nat :| SwapsAt(before, ids, k, last);
      SwapEffect(before, ids, k, last);
    }
  }
}
