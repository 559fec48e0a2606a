/** `sync_firewall_rules_task`: pulling the appliance's rules into the table. */
module FirewallSync {
  import opened Text
  import opened RuleRecord
  import opened RuleOrder
  import opened FirewallModel

  datatype SyncResult = SyncDone(added: nat, updated: nat, deleted: nat) | SyncError

  /** The columns of every listed rule whose sequence Python's `int` accepts. */
  function Listing(rules: map<Uuid, RuleDict>): map<Uuid, Fields> {
    map u | u in rules && ParseRule(rules[u]).Some? :: ParseRule(rules[u]).value
  }

  /** Every listed rule can be parsed. */
  ghost predicate Parsable(rules: map<Uuid, RuleDict>) {
    Listing(rules).Keys == rules.Keys
  }

  // ---------------------------------------------------------------- closed form of a sync

  predicate Differs(listed: Fields, r: Row) {
    r.status.Synced? && r.fields != listed
  }

  /** A row whose uuid is listed. */
  function Refreshed(listed: Fields, now: nat, r: Row): Row {
    if Differs(listed, r) then r.(fields := listed, syncedAt := Some(now), error := None)
    else r.(syncedAt := Some(now))
  }

  function ImportedRow(listed: map<Uuid, Fields>, now: nat, u: Uuid): Row
    requires u in listed
  {
    Row(u, listed[u], Synced, None, Some(now))
  }

  function Held(rows: map<RowId, Row>): set<Uuid> {
    set id | id in rows :: rows[id].uuid
  }

  /** The listed uuids no row holds, in list order. */
  function Unknown(order: seq<Uuid>, held: set<Uuid>): (r: seq<Uuid>)
    ensures forall u :: u in r <==> u in order && u !in held
    ensures Distinct(order) ==> Distinct(r)
  {
    if order == [] then []
    else
      var front, last := Unknown(order[..|order| - 1], held), order[|order| - 1];
      assert order == order[..|order| - 1] + [last];
      if last in held then front else front + [last]
  }

  /** The rows present before the sync, after the uuids of `seen` have been processed. */
  function RefreshedRows(rows: map<RowId, Row>, listed: map<Uuid, Fields>, now: nat, seen: set<Uuid>): map<RowId, Row> {
    map id | id in rows ::
      if rows[id].uuid in seen && rows[id].uuid in listed then Refreshed(listed[rows[id].uuid], now, rows[id])
      else rows[id]
  }

  /** New rows for `unknown`, with consecutive keys from `base`. */
  function ImportedRows(listed: map<Uuid, Fields>, now: nat, base: RowId, unknown: seq<Uuid>): (r: map<RowId, Row>)
    requires forall u :: u in unknown ==> u in listed
    ensures forall id :: id in r <==> base <= id < base + |unknown|
    ensures forall id :: id in r ==>
              unknown[id - base] in listed && r[id] == ImportedRow(listed, now, unknown[id - base])
  {
    if unknown == [] then map[]
    else
      var last := |unknown| - 1;
      ImportedRows(listed, now, base, unknown[..last])[base + last := ImportedRow(listed, now, unknown[last])]
  }

  function VanishedIds(rows: map<RowId, Row>, listed: set<Uuid>): set<RowId> {
    set id | id in rows && rows[id].status.Synced? && rows[id].uuid !in listed
  }

  function UpdatedIds(rows: map<RowId, Row>, listed: map<Uuid, Fields>, seen: set<Uuid>): set<RowId> {
    set id | id in rows && rows[id].uuid in seen && rows[id].uuid in listed && Differs(listed[rows[id].uuid], rows[id])
  }

  /** The table after a completed sync. */
  function SyncedRows(rows: map<RowId, Row>, base: RowId, order: seq<Uuid>, listed: map<Uuid, Fields>,
                      now: nat): map<RowId, Row>
    requires forall u :: u in order ==> u in listed
  {
    (RefreshedRows(rows, listed, now, Elements(order)) + ImportedRows(listed, now, base, Unknown(order, Held(rows))))
    - VanishedIds(rows, listed.Keys)
  }

  // ---------------------------------------------------------------- the first loop

  /** The table and the counters after the listed rules `seen`, of which `unknown` were new. */
  ghost predicate Pulled(rows0: map<RowId, Row>, base: RowId, listed: map<Uuid, Fields>, now: nat,
                         seen: set<Uuid>, unknown: seq<Uuid>,
                         rows: map<RowId, Row>, nextId: RowId, added: nat, updated: nat) {
    && (forall u :: u in unknown ==> u in listed)
    && rows == RefreshedRows(rows0, listed, now, seen) + ImportedRows(listed, now, base, unknown)
    && nextId == base + |unknown| && added == |unknown|
    && updated == |UpdatedIds(rows0, listed, seen)|
  }

  lemma RefreshStep(rows0: map<RowId, Row>, listed: map<Uuid, Fields>, now: nat, seen: set<Uuid>, id: RowId)
    requires UuidsDistinct(rows0) && id in rows0 && rows0[id].uuid in listed && rows0[id].uuid !in seen
    ensures var u := rows0[id].uuid;
            && RefreshedRows(rows0, listed, now, seen + {u})
               == RefreshedRows(rows0, listed, now, seen)[id := Refreshed(listed[u], now, rows0[id])]
            && UpdatedIds(rows0, listed, seen + {u})
               == UpdatedIds(rows0, listed, seen) + (if Differs(listed[u], rows0[id]) then {id} else {})
            && RefreshedRows(rows0, listed, now, seen)[id] == rows0[id]
            && id !in UpdatedIds(rows0, listed, seen)
  {
  }

  lemma UnknownStep(seen: seq<Uuid>, u: Uuid, held: set<Uuid>)
    ensures Unknown(seen + [u], held) == if u in held then Unknown(seen, held) else Unknown(seen, held) + [u]
  {
    assert (seen + [u])[..|seen|] == seen;
  }

  lemma UpdateLeft<K, V>(a: map<K, V>, b: map<K, V>, k: K, v: V)
    requires k !in b
    ensures (a + b)[k := v] == a[k := v] + b
  {
  }

  lemma UpdateRight<K, V>(a: map<K, V>, b: map<K, V>, k: K, v: V)
    ensures (a + b)[k := v] == a + b[k := v]
  {
  }

  lemma ImportStep(listed: map<Uuid, Fields>, now: nat, base: RowId, unknown: seq<Uuid>, u: Uuid)
    requires (forall v :: v in unknown ==> v in listed) && u in listed
    ensures ImportedRows(listed, now, base, unknown + [u])
            == ImportedRows(listed, now, base, unknown)[base + |unknown| := ImportedRow(listed, now, u)]
  {
    assert (unknown + [u])[..|unknown|] == unknown;
  }

  lemma PullKnown(rows0: map<RowId, Row>, base: RowId, listed: map<Uuid, Fields>, now: nat, seen: set<Uuid>,
                  unknown: seq<Uuid>, rows: map<RowId, Row>, nextId: RowId, added: nat, updated: nat, id: RowId)
    requires Pulled(rows0, base, listed, now, seen, unknown, rows, nextId, added, updated)
    requires UuidsDistinct(rows0) && IdsBelow(rows0, base)
    requires id in rows0 && rows0[id].uuid in listed && rows0[id].uuid !in seen
    ensures id in rows && rows[id] == rows0[id]
    ensures var r := rows0[id];
            Pulled(rows0, base, listed, now, seen + {r.uuid}, unknown, rows[id := Refreshed(listed[r.uuid], now, r)],
                   nextId, added, if Differs(listed[r.uuid], r) then updated + 1 else updated)
  {
    var u := rows0[id].uuid;
    RefreshStep(rows0, listed, now, seen, id);
    var imported := ImportedRows(listed, now, base, unknown);
    assert id !in imported;
    UpdateLeft(RefreshedRows(rows0, listed, now, seen), imported, id, Refreshed(listed[u], now, rows0[id]));
  }

  lemma PullNew(rows0: map<RowId, Row>, base: RowId, listed: map<Uuid, Fields>, now: nat, seen: set<Uuid>,
                unknown: seq<Uuid>, rows: map<RowId, Row>, nextId: RowId, added: nat, updated: nat, u: Uuid)
    requires Pulled(rows0, base, listed, now, seen, unknown, rows, nextId, added, updated)
    requires u in listed && u !in Held(rows0)
    ensures Pulled(rows0, base, listed, now, seen + {u}, unknown + [u], rows[nextId := ImportedRow(listed, now, u)],
                   nextId + 1, added + 1, updated)
  {
    RefreshNothing(rows0, listed, now, seen, u);
    PullNewRows(RefreshedRows(rows0, listed, now, seen), listed, now, base, unknown, u);
  }

  lemma PullNewRows(refreshed: map<RowId, Row>, listed: map<Uuid, Fields>, now: nat, base: RowId, unknown: seq<Uuid>,
                    u: Uuid)
    requires (forall v :: v in unknown ==> v in listed) && u in listed
    ensures (refreshed + ImportedRows(listed, now, base, unknown))[base + |unknown| := ImportedRow(listed, now, u)]
            == refreshed + ImportedRows(listed, now, base, unknown + [u])
  {
    ImportStep(listed, now, base, unknown, u);
    UpdateRight(refreshed, ImportedRows(listed, now, base, unknown), base + |unknown|, ImportedRow(listed, now, u));
  }

  lemma RefreshNothing(rows0: map<RowId, Row>, listed: map<Uuid, Fields>, now: nat, seen: set<Uuid>, u: Uuid)
    requires u !in Held(rows0)
    ensures RefreshedRows(rows0, listed, now, seen + {u}) == RefreshedRows(rows0, listed, now, seen)
    ensures UpdatedIds(rows0, listed, seen + {u}) == UpdatedIds(rows0, listed, seen)
  {
    assert forall id :: id in rows0 ==> rows0[id].uuid != u;
  }

  // ---------------------------------------------------------------- the task

  /** One listed rule, already parsed. */
  method PullOne(db: RuleTable, dbRules: map<Uuid, RowId>, uuid: Uuid, data: Fields, now: nat)
      returns (added: nat, updated: nat)
    requires uuid in dbRules ==> dbRules[uuid] in db.rows
    modifies db
    ensures added == (if uuid in dbRules then 0 else 1)
    ensures db.nextId == old(db.nextId) + added
    ensures uuid !in dbRules ==>
              updated == 0 && db.rows == old(db.rows)[old(db.nextId) := Row(uuid, data, Synced, None, Some(now))]
    ensures uuid in dbRules ==>
              var existing := old(db.rows)[dbRules[uuid]];
              && updated == (if Differs(data, existing) then 1 else 0)
              && db.rows == old(db.rows)[dbRules[uuid] := Refreshed(data, now, existing)]
  {
    added, updated := 0, 0;
    if uuid in dbRules {
      var id := dbRules[uuid];
      var existing := db.rows[id];
      if existing.status.Synced? && existing.fields != data {
        db.rows := db.rows[id := existing.(fields := data, syncedAt := Some(now), status := Synced, error := None)];
        updated := 1;
      } else {
        db.rows := db.rows[id := existing.(syncedAt := Some(now))];
      }
    } else {
      db.rows := db.rows[db.nextId := Row(uuid, data, Synced, None, Some(now))];
      db.nextId := db.nextId + 1;
      added := 1;
    }
  }

  /** The second loop: synced rows whose uuid is no longer listed are deleted. */
  method DropVanished(db: RuleTable, rows0: map<RowId, Row>, listed: set<Uuid>) returns (deleted: nat)
    modifies db`rows
    ensures db.rows == old(db.rows) - VanishedIds(rows0, listed) && deleted == |VanishedIds(rows0, listed)|
  {
    deleted := 0;
    var todo := VanishedIds(rows0, listed);
    while todo != {}
      invariant todo <= VanishedIds(rows0, listed)
      invariant db.rows == old(db.rows) - (VanishedIds(rows0, listed) - todo)
      invariant deleted == |VanishedIds(rows0, listed) - todo|
      decreases |todo|
    {
      var id :| id in todo;
      assert VanishedIds(rows0, listed) - (todo - {id}) == (VanishedIds(rows0, listed) - todo) + {id};
      db.rows := db.rows - {id};
      deleted := deleted + 1;
      todo := todo - {id};
    }
    assert VanishedIds(rows0, listed) - todo == VanishedIds(rows0, listed);
  }

  /** `{r.uuid: r for r in db_rules}` */
  function RowsByUuid(rows: map<RowId, Row>): (m: map<Uuid, RowId>)
    requires UuidsDistinct(rows)
    ensures m.Keys == Held(rows)
    ensures forall u :: u in m ==> m[u] in rows && rows[m[u]].uuid == u
  {
    map id | id in rows :: rows[id].uuid := id
  }

  method ParseListed(rules: map<Uuid, RuleDict>, u: Uuid) returns (data: Option<Fields>)
    requires u in rules
    ensures data.Some? <==> u in Listing(rules)
    ensures data.Some? ==> data.value == Listing(rules)[u]
  {
    data := ParseRule(rules[u]);
  }

  /** One iteration of the first loop. */
  method PullNext(db: RuleTable, dbRules: map<Uuid, RowId>, uuid: Uuid, data: Fields, now: nat,
                  added0: nat, updated0: nat, ghost rows0: map<RowId, Row>, ghost base: RowId,
                  ghost listed: map<Uuid, Fields>, ghost seen: set<Uuid>, ghost unknown: seq<Uuid>)
      returns (added: nat, updated: nat)
    requires UuidsDistinct(rows0) && IdsBelow(rows0, base) && dbRules == RowsByUuid(rows0)
    requires Pulled(rows0, base, listed, now, seen, unknown, db.rows, db.nextId, added0, updated0)
    requires uuid !in seen && uuid in listed && data == listed[uuid]
    modifies db
    ensures Pulled(rows0, base, listed, now, seen + {uuid}, if uuid in Held(rows0) then unknown else unknown + [uuid],
                   db.rows, db.nextId, added, updated)
    ensures db.nextId >= old(db.nextId)
  {
    if uuid in dbRules {
      PullKnown(rows0, base, listed, now, seen, unknown, db.rows, db.nextId, added0, updated0, dbRules[uuid]);
    } else {
      PullNew(rows0, base, listed, now, seen, unknown, db.rows, db.nextId, added0, updated0, uuid);
    }
    var a, u := PullOne(db, dbRules, uuid, data, now);
    added, updated := added0 + a, updated0 + u;
  }

  lemma NothingPulled(rows0: map<RowId, Row>, base: RowId, listed: map<Uuid, Fields>, now: nat)
    ensures Pulled(rows0, base, listed, now, {}, [], rows0, base, 0, 0)
  {
    assert UpdatedIds(rows0, listed, {}) == {};
    assert RefreshedRows(rows0, listed, now, {}) == rows0;
  }

  method SyncFirewallRules(db: RuleTable, fw: Firewall, listFails: bool, now: nat) returns (result: SyncResult)
    requires db.Valid() && fw.Valid()
    modifies db
    ensures result.SyncError? <==> listFails || !Parsable(fw.staged.rules)
    ensures result.SyncError? ==> db.rows == old(db.rows) && db.nextId >= old(db.nextId)
    ensures result.SyncDone? ==> Completed(old(db.rows), old(db.nextId), fw.staged, now, db.rows, db.nextId, result)
  {
    if listFails {
      return SyncError;
    }
    var rows0 := db.rows;
    var ok, added, updated := PullAll(db, fw.staged, now);
    if !ok {
      db.rows := rows0;
      return SyncError;
    }
    var deleted := DropVanished(db, rows0, fw.staged.rules.Keys);
    result := SyncDone(added, updated, deleted);
  }

  /** The first loop; it stops at the first listed rule that cannot be parsed. */
  method PullAll(db: RuleTable, staged: Ruleset, now: nat) returns (ok: bool, added: nat, updated: nat)
    requires db.Valid() && staged.Valid()
    modifies db
    ensures ok <==> Parsable(staged.rules)
    ensures db.nextId >= old(db.nextId)
    ensures ok ==> forall u :: u in staged.order ==> u in Listing(staged.rules)
    ensures ok ==> Pulled(old(db.rows), old(db.nextId), Listing(staged.rules), now, Elements(staged.order),
                          Unknown(staged.order, Held(old(db.rows))), db.rows, db.nextId, added, updated)
  {
    hide Pulled, Unknown, Listing, Parsable, Held, UuidsDistinct, Distinct;
    var rows0, order, rules := db.rows, staged.order, staged.rules;
    ghost var base, listed, held := db.nextId, Listing(rules), Held(rows0);
    var dbRules := RowsByUuid(rows0);
    ok, added, updated := true, 0, 0;
    NothingPulled(rows0, base, listed, now);
    NothingUnknown(held);
    AllListed(staged);
    assert order[..0] == [] && Elements(order[..0]) == {};
    for i := 0 to |order|
      invariant Pulled(rows0, base, listed, now, Elements(order[..i]), Unknown(order[..i], held),
                       db.rows, db.nextId, added, updated)
      invariant db.nextId >= base
      invariant forall j :: 0 <= j < i ==> order[j] in listed
    {
      var uuid := order[i];
      var data := ParseListed(rules, uuid);
      if data.None? {
        return false, added, updated;
      }
      PrefixStep(order, i);
      UnknownStep(order[..i], uuid, held);
      added, updated := PullNext(db, dbRules, uuid, data.value, now, added, updated, rows0, base, listed,
                                 Elements(order[..i]), Unknown(order[..i], held));
    }
    assert order[..|order|] == order;
  }

  lemma NothingUnknown(held: set<Uuid>)
    ensures Unknown([], held) == []
  {
  }

  lemma AllListed(staged: Ruleset)
    requires staged.Valid()
    ensures Parsable(staged.rules) <==> forall i :: 0 <= i < |staged.order| ==> staged.order[i] in Listing(staged.rules)
    ensures Parsable(staged.rules) ==> forall u :: u in staged.order ==> u in Listing(staged.rules)
    ensures forall u :: u in staged.order ==> u in staged.rules
  {
    forall i | 0 <= i < |staged.order|
      ensures staged.order[i] in staged.rules
    {
      assert staged.order[i] in Elements(staged.order);
    }
    forall u | u in staged.rules
      ensures u in staged.order
    {
      assert u in Elements(staged.order);
    }
  }

  /** A completed sync: the table, the next key and the reported counts. */
  ghost predicate Completed(rows0: map<RowId, Row>, base: RowId, staged: Ruleset, now: nat,
                         rows: map<RowId, Row>, nextId: RowId, result: SyncResult) {
    var listed, unknown := Listing(staged.rules), Unknown(staged.order, Held(rows0));
    && (forall u :: u in staged.order ==> u in listed)
    && rows == SyncedRows(rows0, base, staged.order, listed, now)
    && nextId == base + |unknown|
    && result == SyncDone(|unknown|, |UpdatedIds(rows0, listed, Elements(staged.order))|,
                          |VanishedIds(rows0, listed.Keys)|)
  }
}
