/** What a completed sync guarantees: the synced rows mirror the appliance. */
module SyncProperties {
  import opened Sets
  import opened Text
  import opened RuleRecord
  import opened RuleOrder
  import opened FirewallModel
  import opened FirewallSync

  /** Some row that is pending, pending_delete or failed holds `u`. */
  ghost predicate HeldUnsynced(rows: map<RowId, Row>, u: Uuid) {
    exists id :: id in rows && !rows[id].status.Synced? && rows[id].uuid == u
  }

  ghost predicate HeldSynced(rows: map<RowId, Row>, u: Uuid) {
    exists id :: id in rows && rows[id].status.Synced? && rows[id].uuid == u
  }

  /** An old row after the sync. */
  lemma OldRow(rows0: map<RowId, Row>, base: RowId, staged: Ruleset, now: nat,
               rows: map<RowId, Row>, nextId: RowId, result: SyncResult, id: RowId)
    requires IdsBelow(rows0, base) && staged.Valid()
    requires Completed(rows0, base, staged, now, rows, nextId, result) && id in rows0
    ensures var r := rows0[id];
            if r.uuid in staged.rules then
              && r.uuid in Listing(staged.rules)
              && id in rows && rows[id] == Refreshed(Listing(staged.rules)[r.uuid], now, r)
            else if r.status.Synced? then id !in rows
            else id in rows && rows[id] == r
  {
    var r := rows0[id];
    assert r.uuid in staged.rules <==> r.uuid in Elements(staged.order);
  }

  lemma ImportedOnly(refreshed: map<RowId, Row>, vanished: set<RowId>, listed: map<Uuid, Fields>, now: nat, base: RowId,
                     unknown: seq<Uuid>, rows: map<RowId, Row>, id: RowId)
    requires forall u :: u in unknown ==> u in listed
    requires rows == (refreshed + ImportedRows(listed, now, base, unknown)) - vanished
    requires id !in refreshed && id !in vanished
    ensures id in rows <==> base <= id < base + |unknown|
    ensures id in rows ==> unknown[id - base] in listed && rows[id] == ImportedRow(listed, now, unknown[id - base])
  {
    var imported := ImportedRows(listed, now, base, unknown);
    assert id in rows <==> id in imported;
  }

  /** A row that was not there before. */
  lemma NewRow(rows0: map<RowId, Row>, base: RowId, staged: Ruleset, now: nat,
               rows: map<RowId, Row>, nextId: RowId, result: SyncResult, id: RowId)
    requires staged.Valid() && Completed(rows0, base, staged, now, rows, nextId, result)
    requires IdsBelow(rows0, base) && id !in rows0
    ensures var unknown := Unknown(staged.order, Held(rows0));
            && (id in rows <==> base <= id < nextId)
            && (id in rows ==> id - base < |unknown| && unknown[id - base] in Listing(staged.rules)
                               && rows[id] == ImportedRow(Listing(staged.rules), now, unknown[id - base]))
  {
    var listed, unknown := Listing(staged.rules), Unknown(staged.order, Held(rows0));
    ImportedOnly(RefreshedRows(rows0, listed, now, Elements(staged.order)), VanishedIds(rows0, listed.Keys), listed,
                 now, base, unknown, rows, id);
  }

  lemma ImportedAreSynced(refreshed: map<RowId, Row>, vanished: set<RowId>, listed: map<Uuid, Fields>, now: nat,
                          base: RowId, unknown: seq<Uuid>, rows: map<RowId, Row>, k: nat)
    requires forall u :: u in unknown ==> u in listed
    requires rows == (refreshed + ImportedRows(listed, now, base, unknown)) - vanished
    requires IdsBelow(refreshed, base) && vanished <= refreshed.Keys && k < |unknown|
    ensures HeldSynced(rows, unknown[k])
  {
    var id := base + k;
    ImportedOnly(refreshed, vanished, listed, now, base, unknown, rows, id);
    assert id - base == k;
    HeldBy(rows, id, unknown[k]);
  }

  /** The part of the mirror property that concerns one row. */
  lemma RowMirrors(rows0: map<RowId, Row>, base: RowId, staged: Ruleset, now: nat,
                   rows: map<RowId, Row>, nextId: RowId, result: SyncResult, id: RowId)
    requires UuidsDistinct(rows0) && IdsBelow(rows0, base) && staged.Valid()
    requires Completed(rows0, base, staged, now, rows, nextId, result) && id in rows
    ensures id < nextId
    ensures id in rows0 ==> rows[id].uuid == rows0[id].uuid && rows[id].status == rows0[id].status
    ensures rows[id].status.Synced? ==>
              && rows[id].uuid in staged.rules && !HeldUnsynced(rows0, rows[id].uuid)
              && ParseRule(staged.rules[rows[id].uuid]) == Some(rows[id].fields)
    ensures id !in rows0 ==> rows[id].status.Synced? && rows[id].uuid !in Held(rows0)
  {
    if id in rows0 {
      OldRow(rows0, base, staged, now, rows, nextId, result, id);
    } else {
      NewRow(rows0, base, staged, now, rows, nextId, result, id);
      var unknown := Unknown(staged.order, Held(rows0));
      assert unknown[id - base] in unknown;
      assert unknown[id - base] in Elements(staged.order);
      assert forall j :: j in rows0 ==> rows0[j].uuid in Held(rows0);
    }
  }

  lemma UuidsStayDistinct(rows0: map<RowId, Row>, base: RowId, staged: Ruleset, now: nat,
                          rows: map<RowId, Row>, nextId: RowId, result: SyncResult, i: RowId, j: RowId)
    requires UuidsDistinct(rows0) && IdsBelow(rows0, base) && staged.Valid()
    requires Completed(rows0, base, staged, now, rows, nextId, result)
    requires i in rows && j in rows && i != j
    ensures rows[i].uuid != rows[j].uuid
  {
    RowMirrors(rows0, base, staged, now, rows, nextId, result, i);
    RowMirrors(rows0, base, staged, now, rows, nextId, result, j);
    if i in rows0 {
      assert rows0[i].uuid in Held(rows0);
    }
    if j in rows0 {
      assert rows0[j].uuid in Held(rows0);
    }
    if i !in rows0 && j !in rows0 {
      NewRow(rows0, base, staged, now, rows, nextId, result, i);
      NewRow(rows0, base, staged, now, rows, nextId, result, j);
    }
  }

  /** A listed uuid that no unsynced row held is held by a synced row afterwards. */
  lemma ListedIsHeld(rows0: map<RowId, Row>, base: RowId, staged: Ruleset, now: nat,
                     rows: map<RowId, Row>, nextId: RowId, result: SyncResult, u: Uuid)
    requires UuidsDistinct(rows0) && IdsBelow(rows0, base) && staged.Valid()
    requires Completed(rows0, base, staged, now, rows, nextId, result)
    requires u in staged.rules && !HeldUnsynced(rows0, u)
    ensures HeldSynced(rows, u)
  {
    if u in Held(rows0) {
      var id :| id in rows0 && rows0[id].uuid == u;
      OldRow(rows0, base, staged, now, rows, nextId, result, id);
      HeldBy(rows, id, u);
    } else {
      var listed, unknown := Listing(staged.rules), Unknown(staged.order, Held(rows0));
      assert u in Elements(staged.order);
      var k := PositionIn(unknown, u);
      ImportedAreSynced(RefreshedRows(rows0, listed, now, Elements(staged.order)), VanishedIds(rows0, listed.Keys),
                        listed, now, base, unknown, rows, k);
    }
  }

  lemma PositionIn(s: seq<Uuid>, u: Uuid) returns (k: nat)
    requires u in s
    ensures k < |s| && s[k] == u
  {
    k :| 0 <= k < |s| && s[k] == u;
  }

  lemma HeldBy(rows: map<RowId, Row>, id: RowId, u: Uuid)
    requires id in rows && rows[id].status.Synced? && rows[id].uuid == u
    ensures HeldSynced(rows, u)
  {
  }

  /** After a sync the uuids of the synced rows are exactly the listed uuids that no pending,
      pending_delete or failed row held; their columns are the parsed listing, key by key; every other row
      changed at most its `synced_at`. */
  lemma SyncMirrors(rows0: map<RowId, Row>, base: RowId, staged: Ruleset, now: nat,
                    rows: map<RowId, Row>, nextId: RowId, result: SyncResult)
    requires UuidsDistinct(rows0) && IdsBelow(rows0, base) && staged.Valid()
    requires Completed(rows0, base, staged, now, rows, nextId, result)
    ensures UuidsDistinct(rows) && IdsBelow(rows, nextId)
    ensures forall u :: HeldSynced(rows, u) <==> u in staged.rules && !HeldUnsynced(rows0, u)
    ensures forall id :: id in rows && rows[id].status.Synced? ==>
              && rows[id].uuid in staged.rules && ParseRule(staged.rules[rows[id].uuid]) == Some(rows[id].fields)
              && Reads(staged.rules[rows[id].uuid], rows[id].fields)
    ensures forall id :: id in rows0 && !rows0[id].status.Synced? ==>
              id in rows && rows[id] == rows0[id].(syncedAt := rows[id].syncedAt)
  {
    hide Reads;
    forall id | id in rows
      ensures id < nextId
      ensures rows[id].status.Synced? ==>
                && rows[id].uuid in staged.rules && !HeldUnsynced(rows0, rows[id].uuid)
                && ParseRule(staged.rules[rows[id].uuid]) == Some(rows[id].fields)
                && Reads(staged.rules[rows[id].uuid], rows[id].fields)
    {
      RowMirrors(rows0, base, staged, now, rows, nextId, result, id);
      if rows[id].status.Synced? {
        ParseReads(staged.rules[rows[id].uuid]);
      }
    }
    forall u | u in staged.rules && !HeldUnsynced(rows0, u)
      ensures HeldSynced(rows, u)
    {
      ListedIsHeld(rows0, base, staged, now, rows, nextId, result, u);
    }
    forall id | id in rows0 && !rows0[id].status.Synced?
      ensures id in rows && rows[id] == rows0[id].(syncedAt := rows[id].syncedAt)
    {
      OldRow(rows0, base, staged, now, rows, nextId, result, id);
    }
    forall i, j | i in rows && j in rows && i != j
      ensures rows[i].uuid != rows[j].uuid
    {
      UuidsStayDistinct(rows0, base, staged, now, rows, nextId, result, i, j);
    }
  }

  /** The reported counts account for the size of the table. */
  lemma SyncCounts(rows0: map<RowId, Row>, base: RowId, staged: Ruleset, now: nat,
                   rows: map<RowId, Row>, nextId: RowId, result: SyncResult)
    requires IdsBelow(rows0, base) && staged.Valid()
    requires Completed(rows0, base, staged, now, rows, nextId, result)
    ensures |rows| == |rows0| + result.added - result.deleted
  {
    hide Completed, VanishedIds, Listing;
    var vanished := VanishedIds(rows0, Listing(staged.rules).Keys);
    CountsReported(rows0, base, staged, now, rows, nextId, result);
    forall id: RowId
      ensures id in rows.Keys <==> (id in rows0.Keys && id !in vanished) || base <= id < nextId
    {
      KeyAfterSync(rows0, base, staged, now, rows, nextId, result, id);
    }
    CountKeys(rows.Keys, rows0.Keys, vanished, base, nextId);
    assert |rows| == |rows.Keys| && |rows0| == |rows0.Keys|;
  }

  lemma CountsReported(rows0: map<RowId, Row>, base: RowId, staged: Ruleset, now: nat,
                       rows: map<RowId, Row>, nextId: RowId, result: SyncResult)
    requires Completed(rows0, base, staged, now, rows, nextId, result)
    ensures result.SyncDone? && result.added == nextId - base
    ensures result.deleted == |VanishedIds(rows0, Listing(staged.rules).Keys)|
    ensures VanishedIds(rows0, Listing(staged.rules).Keys) <= rows0.Keys
  {
  }

  lemma CountKeys(keys: set<RowId>, keys0: set<RowId>, gone: set<RowId>, lo: nat, hi: nat)
    requires lo <= hi && gone <= keys0 && forall id :: id in keys0 ==> id < lo
    requires forall id :: id in keys <==> (id in keys0 && id !in gone) || lo <= id < hi
    ensures |keys| == |keys0| + (hi - lo) - |gone|
  {
    var come := Range(lo, hi);
    assert keys == (keys0 - gone) + come && (keys0 - gone) !! come;
    assert |keys0 - gone| == |keys0| - |gone|;
  }

  lemma KeyAfterSync(rows0: map<RowId, Row>, base: RowId, staged: Ruleset, now: nat,
                     rows: map<RowId, Row>, nextId: RowId, result: SyncResult, id: RowId)
    requires IdsBelow(rows0, base) && staged.Valid()
    requires Completed(rows0, base, staged, now, rows, nextId, result)
    ensures id in rows <==>
              (id in rows0 && id !in VanishedIds(rows0, Listing(staged.rules).Keys)) || base <= id < nextId
  {
    if id in rows0 {
      OldRow(rows0, base, staged, now, rows, nextId, result, id);
      assert rows0[id].uuid in staged.rules ==> rows0[id].uuid in Elements(staged.order);
    } else {
      NewRow(rows0, base, staged, now, rows, nextId, result, id);
    }
  }

  /** The table agrees with the appliance: nothing would be added, updated or deleted. */
  ghost predicate Settled(rows: map<RowId, Row>, staged: Ruleset) {
    && (forall id :: id in rows && rows[id].status.Synced? ==>
          rows[id].uuid in staged.rules && ParseRule(staged.rules[rows[id].uuid]) == Some(rows[id].fields))
    && staged.rules.Keys <= Held(rows)
  }

  lemma SyncSettles(rows0: map<RowId, Row>, base: RowId, staged: Ruleset, now: nat,
                    rows: map<RowId, Row>, nextId: RowId, result: SyncResult)
    requires UuidsDistinct(rows0) && IdsBelow(rows0, base) && staged.Valid()
    requires Completed(rows0, base, staged, now, rows, nextId, result)
    ensures Settled(rows, staged) && IdsBelow(rows, nextId)
  {
    SyncMirrors(rows0, base, staged, now, rows, nextId, result);
    forall u | u in staged.rules
      ensures u in Held(rows)
    {
      if HeldUnsynced(rows0, u) {
        var id :| id in rows0 && !rows0[id].status.Synced? && rows0[id].uuid == u;
        assert id in rows && rows[id].uuid == u;
      } else {
        assert HeldSynced(rows, u);
      }
    }
  }

  lemma SettledCounts(rows: map<RowId, Row>, base: RowId, staged: Ruleset, now: nat,
                      rows2: map<RowId, Row>, nextId2: RowId, result2: SyncResult)
    requires staged.Valid() && Settled(rows, staged)
    requires Completed(rows, base, staged, now, rows2, nextId2, result2)
    ensures result2 == SyncDone(0, 0, 0) && nextId2 == base
  {
    var unknown := Unknown(staged.order, Held(rows));
    assert forall u :: u in unknown ==> u in Elements(staged.order);
    assert UpdatedIds(rows, Listing(staged.rules), Elements(staged.order)) == {};
    assert VanishedIds(rows, Listing(staged.rules).Keys) == {};
  }

  lemma SettledRow(rows: map<RowId, Row>, base: RowId, staged: Ruleset, now: nat,
                   rows2: map<RowId, Row>, nextId2: RowId, result2: SyncResult, id: RowId)
    requires IdsBelow(rows, base) && staged.Valid() && Settled(rows, staged) && nextId2 == base
    requires Completed(rows, base, staged, now, rows2, nextId2, result2)
    ensures id in rows2 <==> id in rows
    ensures id in rows ==> rows2[id] == rows[id].(syncedAt := rows2[id].syncedAt)
  {
    if id in rows {
      OldRow(rows, base, staged, now, rows2, nextId2, result2, id);
    } else {
      NewRow(rows, base, staged, now, rows2, nextId2, result2, id);
    }
  }

  lemma SettledIsQuiet(rows: map<RowId, Row>, base: RowId, staged: Ruleset, now: nat,
                       rows2: map<RowId, Row>, nextId2: RowId, result2: SyncResult)
    requires IdsBelow(rows, base) && staged.Valid() && Settled(rows, staged)
    requires Completed(rows, base, staged, now, rows2, nextId2, result2)
    ensures result2 == SyncDone(0, 0, 0) && nextId2 == base && rows2.Keys == rows.Keys
    ensures forall id :: id in rows ==> rows2[id] == rows[id].(syncedAt := rows2[id].syncedAt)
  {
    SettledCounts(rows, base, staged, now, rows2, nextId2, result2);
    forall id
      ensures id in rows2 <==> id in rows
      ensures id in rows ==> rows2[id] == rows[id].(syncedAt := rows2[id].syncedAt)
    {
      SettledRow(rows, base, staged, now, rows2, nextId2, result2, id);
    }
  }

  /** A second sync against an unchanged appliance reports no change and only touches `synced_at`. */
  lemma SecondSyncIsQuiet(rows0: map<RowId, Row>, base: RowId, staged: Ruleset, now: nat,
                          rows: map<RowId, Row>, nextId: RowId, result: SyncResult,
                          later: nat, rows2: map<RowId, Row>, nextId2: RowId, result2: SyncResult)
    requires UuidsDistinct(rows0) && IdsBelow(rows0, base) && staged.Valid()
    requires Completed(rows0, base, staged, now, rows, nextId, result)
    requires Completed(rows, nextId, staged, later, rows2, nextId2, result2)
    ensures result2 == SyncDone(0, 0, 0) && nextId2 == nextId && rows2.Keys == rows.Keys
    ensures forall id :: id in rows ==> rows2[id] == rows[id].(syncedAt := rows2[id].syncedAt)
  {
    SyncSettles(rows0, base, staged, now, rows, nextId, result);
    SettledIsQuiet(rows, nextId, staged, later, rows2, nextId2, result2);
  }
}
