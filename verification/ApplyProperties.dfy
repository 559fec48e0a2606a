/** What one run of `apply_all_pending_rules_task` guarantees, for every pattern of failing
    provider calls and for a run in which all of them succeed. */
module ApplyProperties {
  import opened Text
  import opened RuleRecord
  import opened RuleOrder
  import opened FirewallModel
  import opened FirewallApply
  import opened FirewallTask
  import opened FirewallSync
  import opened SyncProperties
  import opened FirewallApi

  /** The column holds the exception's text, cut to its width. */
  ghost predicate ShowsText(column: Option<string>, text: string) {
    column.Some? && column.value <= text && |column.value| <= 500 && (column.value == text || |column.value| == 500)
  }

  /** The fate of one row, whatever fails. */
  lemma RowFate(rows0: map<RowId, Row>, staged0: Ruleset, live0: Ruleset, calls: Calls,
                rows: map<RowId, Row>, staged: Ruleset, live: Ruleset, id: RowId)
    requires Applied(rows0, staged0, live0, calls, rows, staged, live)
    ensures id in rows ==> id in rows0 && !Picked(rows[id]) && rows[id].fields == rows0[id].fields
    ensures id in rows0 && !Picked(rows0[id]) ==> id in rows && rows[id] == rows0[id]
    ensures id in rows0 && Picked(rows0[id]) ==>
              var pushed := PushOk(staged0.rules.Keys, calls, id, rows0[id]);
              && (id !in rows <==> rows0[id].status.PendingDelete? && pushed)
              && (id in rows && rows[id].status.Synced? <==>
                    rows0[id].status.Pending? && pushed && ReloadOk(rows0, staged0.rules.Keys, calls))
              && (id in rows && rows[id].status.Synced? ==> !calls.reloadFails)
    ensures id in rows && Picked(rows0[id]) ==>
              var r := rows[id];
              if r.status.Synced? then r.error == None && r.syncedAt == Some(calls.now)
              else if PushOk(staged0.rules.Keys, calls, id, rows0[id]) then ShowsText(r.error, calls.reloadText)
              else id in calls.errorText ==> ShowsText(r.error, calls.errorText[id])
  {
    hide Ordered, Contents, PushedOrder, RowsPushed;
    if id in rows0 && Picked(rows0[id]) && PushOk(staged0.rules.Keys, calls, id, rows0[id]) {
      assert id in Effective(rows0, staged0.rules.Keys, calls, rows0.Keys);
    }
  }

  /** Under any failures: nothing stays pending, unpicked rows are untouched, a picked row ends
      synced exactly when its push and the reload succeeded, and a row with a real uuid leaves
      the table exactly when the appliance confirmed its deletion. */
  lemma EveryPickedRowIsResolved(rows0: map<RowId, Row>, staged0: Ruleset, live0: Ruleset, calls: Calls,
                                 rows: map<RowId, Row>, staged: Ruleset, live: Ruleset)
    requires Applied(rows0, staged0, live0, calls, rows, staged, live)
    ensures rows.Keys <= rows0.Keys && forall id :: id in rows ==> rows[id].status.Synced? || rows[id].status.Failed?
    ensures forall id :: id in rows0 && !Picked(rows0[id]) ==> id in rows && rows[id] == rows0[id]
    ensures forall id :: id in rows0 && Picked(rows0[id]) ==>
              (id in rows && rows[id].status.Synced? <==>
                 rows0[id].status.Pending? && PushOk(staged0.rules.Keys, calls, id, rows0[id]) && !calls.reloadFails)
    ensures forall id :: id in rows0 && Picked(rows0[id]) && !IsPlaceholder(rows0[id].uuid) ==>
              (id !in rows <==>
                 rows0[id].status.PendingDelete? && id !in calls.failing && rows0[id].uuid in staged0.rules)
  {
    forall id
      ensures id in rows ==> id in rows0 && (rows[id].status.Synced? || rows[id].status.Failed?)
      ensures id in rows0 && !Picked(rows0[id]) ==> id in rows && rows[id] == rows0[id]
      ensures id in rows0 && Picked(rows0[id]) ==>
                (id in rows && rows[id].status.Synced? <==>
                   rows0[id].status.Pending? && PushOk(staged0.rules.Keys, calls, id, rows0[id]) && !calls.reloadFails)
    {
      RowFate(rows0, staged0, live0, calls, rows, staged, live, id);
    }
    forall id | id in rows0 && Picked(rows0[id]) && !IsPlaceholder(rows0[id].uuid)
      ensures id !in rows <==>
                rows0[id].status.PendingDelete? && id !in calls.failing && rows0[id].uuid in staged0.rules
    {
      RowFate(rows0, staged0, live0, calls, rows, staged, live, id);
    }
  }

  // ---------------------------------------------------------------- every call succeeds

  /** Something is pending, every push succeeds and so does the reload. */
  ghost predicate AllSucceed(rows0: map<RowId, Row>, known: set<Uuid>, calls: Calls) {
    && PickedIds(rows0) != {} && !calls.reloadFails
    && forall id :: id in rows0 && Picked(rows0[id]) ==> PushOk(known, calls, id, rows0[id])
  }

  lemma PushedRowIsLive(rows0: map<RowId, Row>, staged0: Ruleset, live0: Ruleset, issued: set<Uuid>, calls: Calls,
                        rows: map<RowId, Row>, staged: Ruleset, live: Ruleset, id: RowId)
    requires Ready(rows0, staged0, issued, calls) && AllSucceed(rows0, staged0.rules.Keys, calls)
    requires Applied(rows0, staged0, live0, calls, rows, staged, live)
    requires id in rows0 && rows0[id].status.Pending?
    ensures id in rows && rows[id].status.Synced? && rows[id].fields == rows0[id].fields
    ensures !IsPlaceholder(rows[id].uuid)
    ensures rows[id].uuid in staged.rules && staged.rules[rows[id].uuid] == Payload(rows[id].fields)
  {
    RowFate(rows0, staged0, live0, calls, rows, staged, live, id);
    assert id in Effective(rows0, staged0.rules.Keys, calls, rows0.Keys);
    assert rows[id].uuid == PushedUuid(calls, id, rows0[id]);
  }

  lemma LiveIsStaged(rows0: map<RowId, Row>, staged0: Ruleset, live0: Ruleset, calls: Calls,
                     rows: map<RowId, Row>, staged: Ruleset, live: Ruleset)
    requires AllSucceed(rows0, staged0.rules.Keys, calls)
    requires Applied(rows0, staged0, live0, calls, rows, staged, live)
    ensures live == staged
    ensures Effective(rows0, staged0.rules.Keys, calls, rows0.Keys) == PickedIds(rows0)
  {
  }

  /** After a fully successful apply the live rules are the staged ones; every pending row is
      synced under a real uuid whose live entry is its payload, key by key; deleted rows are gone from both
      sides; all other rows and entries keep their contents, and no other entry appears. */
  lemma SuccessfulApply(rows0: map<RowId, Row>, staged0: Ruleset, live0: Ruleset, issued: set<Uuid>, calls: Calls,
                        rows: map<RowId, Row>, staged: Ruleset, live: Ruleset)
    requires Ready(rows0, staged0, issued, calls) && AllSucceed(rows0, staged0.rules.Keys, calls)
    requires Applied(rows0, staged0, live0, calls, rows, staged, live)
    ensures live == staged
    ensures forall id :: id in rows0 && rows0[id].status.Pending? ==>
              && id in rows && rows[id].status.Synced? && rows[id].fields == rows0[id].fields
              && !IsPlaceholder(rows[id].uuid) && rows[id].uuid in live.rules
              && live.rules[rows[id].uuid] == Payload(rows[id].fields)
              && Sends(live.rules[rows[id].uuid], rows0[id].fields)
    ensures forall id :: id in rows0 && rows0[id].status.PendingDelete? ==> id !in rows && rows0[id].uuid !in live.rules
    ensures forall id :: id in rows0 && !Picked(rows0[id]) ==> id in rows && rows[id] == rows0[id]
    ensures rows.Keys <= rows0.Keys
    ensures forall u :: u in staged0.rules && !HeldIn(rows0, PickedIds(rows0), u) ==>
              u in live.rules && live.rules[u] == staged0.rules[u]
    ensures forall u :: u in live.rules ==> u in staged0.rules || CreatedIn(rows0, calls, PickedIds(rows0), u)
  {
    LiveIsStaged(rows0, staged0, live0, calls, rows, staged, live);
    EveryPickedRowIsResolved(rows0, staged0, live0, calls, rows, staged, live);
    forall id | id in rows0 && rows0[id].status.Pending?
      ensures id in rows && rows[id].status.Synced? && rows[id].fields == rows0[id].fields
      ensures !IsPlaceholder(rows[id].uuid) && rows[id].uuid in live.rules
      ensures live.rules[rows[id].uuid] == Payload(rows[id].fields)
      ensures Sends(live.rules[rows[id].uuid], rows0[id].fields)
    {
      PayloadSends(rows0[id].fields);
      PushedRowIsLive(rows0, staged0, live0, issued, calls, rows, staged, live, id);
    }
    forall id | id in rows0 && rows0[id].status.PendingDelete?
      ensures id !in rows && rows0[id].uuid !in live.rules
    {
      RowFate(rows0, staged0, live0, calls, rows, staged, live, id);
      assert id in PickedIds(rows0);
    }
  }

  // ---------------------------------------------------------------- a failed reload

  /** A row that leaves the table takes its rule out of the live list only if the reload
      succeeds; after a failed reload the appliance keeps enforcing a rule the table no longer knows. */
  lemma DroppedRuleStaysLive(rows0: map<RowId, Row>, staged0: Ruleset, live0: Ruleset, calls: Calls,
                             rows: map<RowId, Row>, staged: Ruleset, live: Ruleset, id: RowId)
    requires Applied(rows0, staged0, live0, calls, rows, staged, live)
    requires id in rows0 && id !in rows && rows0[id].uuid in live0.rules
    ensures rows0[id].uuid in live.rules <==> calls.reloadFails
  {
    RowFate(rows0, staged0, live0, calls, rows, staged, live, id);
    assert id in Effective(rows0, staged0.rules.Keys, calls, rows0.Keys);
  }

  /** And the next apply does not repair that when nothing is pending: it leaves both lists alone. */
  lemma NothingPendingNothingReloaded(rows0: map<RowId, Row>, staged0: Ruleset, live0: Ruleset, calls: Calls,
                                      rows: map<RowId, Row>, staged: Ruleset, live: Ruleset)
    requires Applied(rows0, staged0, live0, calls, rows, staged, live)
    requires forall id :: id in rows0 ==> !Picked(rows0[id])
    ensures rows == rows0 && staged == staged0 && live == live0
  {
    assert PickedIds(rows0) == {};
    assert Effective(rows0, staged0.rules.Keys, calls, rows0.Keys) == {};
    forall id
      ensures id in rows <==> id in rows0
      ensures id in rows0 ==> rows[id] == rows0[id]
    {
      RowFate(rows0, staged0, live0, calls, rows, staged, live, id);
    }
  }

  // ---------------------------------------------------------------- the order

  /** When the listing and the moves succeed, the staged order ends in database order exactly
      if the last rules of the runs of present rows stood in database order in the pushed order,
      which is a function of the table, the old order and what the calls do. */
  lemma ApplyOrder(rows0: map<RowId, Row>, staged0: Ruleset, live0: Ruleset, calls: Calls,
                   rows: map<RowId, Row>, staged: Ruleset, live: Ruleset)
      returns (ids: seq<RowId>)
    requires Applied(rows0, staged0, live0, calls, rows, staged, live)
    requires PickedIds(rows0) != {} && !calls.listFails && calls.failingMoves == {}
    ensures IsSequenceOrder(rows0, ids)
    ensures var known := staged0.rules.Keys;
            var pushed := RowsPushed(rows0, known, calls, rows0.Keys);
            var order := PushedOrder(rows0, staged0.order, known, calls);
            && (forall id :: id in ids ==> id in pushed)
            && (InOrder(staged.order, UuidsOf(pushed, ids)) <==> AnchorsInOrder(order, UuidsOf(pushed, ids)))
  {
    var known := staged0.rules.Keys;
    var pushed, order := RowsPushed(rows0, known, calls, rows0.Keys), PushedOrder(rows0, staged0.order, known, calls);
    ids :| OrderVia(pushed, order, calls, staged.order, ids);
    ReorderReachesDatabaseOrder(order, UuidsOf(pushed, ids));
    SameSequenceOrder(rows0, known, calls, ids);
  }

  /** With distinct sequences the listing is no choice of the database either: the condition is
      one on the inputs alone. */
  lemma ApplyOrderFromInputs(rows0: map<RowId, Row>, staged0: Ruleset, live0: Ruleset, calls: Calls,
                             rows: map<RowId, Row>, staged: Ruleset, live: Ruleset, ids: seq<RowId>)
    requires Applied(rows0, staged0, live0, calls, rows, staged, live)
    requires PickedIds(rows0) != {} && !calls.listFails && calls.failingMoves == {}
    requires SequencesDistinct(rows0) && IsSequenceOrder(rows0, ids)
    ensures var known := staged0.rules.Keys;
            var pushed := RowsPushed(rows0, known, calls, rows0.Keys);
            var order := PushedOrder(rows0, staged0.order, known, calls);
            && (forall id :: id in ids ==> id in pushed)
            && (InOrder(staged.order, UuidsOf(pushed, ids)) <==> AnchorsInOrder(order, UuidsOf(pushed, ids)))
  {
    var other := ApplyOrder(rows0, staged0, live0, calls, rows, staged, live);
    SequenceOrderIsUnique(rows0, ids, other);
  }

  /** The row's rule is on the appliance once everything has been pushed: it was added, or it
      was there and has not been deleted. */
  predicate StaysPresent(known: set<Uuid>, calls: Calls, id: RowId, r: Row) {
    if IsPlaceholder(r.uuid) then IsCreate(r) && id !in calls.failing
    else r.uuid in known && !(r.status.PendingDelete? && id !in calls.failing)
  }

  lemma {:induction false} CreatedElements(rows: map<RowId, Row>, known: set<Uuid>, calls: Calls, ids: seq<RowId>,
                                           u: Uuid)
    ensures u in Created(rows, known, calls, ids) <==>
            exists id :: id in ids && id in rows && IsCreate(rows[id]) && PushOk(known, calls, id, rows[id])
                         && AssignedUuid(calls, id) == u
  {
    if ids != [] {
      var front, last := ids[..|ids| - 1], ids[|ids| - 1];
      assert ids == front + [last];
      CreatedElements(rows, known, calls, front, u);
    }
  }

  /** Presence in the pushed order, row by row, from the inputs. */
  lemma PresentAfterPush(rows0: map<RowId, Row>, staged0: Ruleset, issued: set<Uuid>, calls: Calls, id: RowId)
    requires Ready(rows0, staged0, issued, calls) && id in rows0
    ensures var known := staged0.rules.Keys;
            RowPushed(known, calls, id, rows0[id]).uuid in PushedOrder(rows0, staged0.order, known, calls)
            <==> StaysPresent(known, calls, id, rows0[id])
  {
    var known := staged0.rules.Keys;
    var u := RowPushed(known, calls, id, rows0[id]).uuid;
    var gone := Gone(rows0, known, calls, rows0.Keys);
    var rest := Without(staged0.order, gone);
    WithoutElements(staged0.order, gone);
    assert u in rest <==> u in Elements(rest);
    CreatedElements(rows0, known, calls, calls.queryOrder, u);
    if IsPlaceholder(rows0[id].uuid) {
      NewRuleIsPresent(rows0, staged0, issued, calls, id);
    } else {
      GoneIsOwn(rows0, known, calls, id);
    }
  }

  lemma NewRuleIsPresent(rows0: map<RowId, Row>, staged0: Ruleset, issued: set<Uuid>, calls: Calls, id: RowId)
    requires Ready(rows0, staged0, issued, calls) && id in rows0 && IsPlaceholder(rows0[id].uuid)
    ensures var u := RowPushed(staged0.rules.Keys, calls, id, rows0[id]).uuid;
            && u !in staged0.rules
            && ((exists j :: j in calls.queryOrder && j in rows0 && IsCreate(rows0[j])
                             && PushOk(staged0.rules.Keys, calls, j, rows0[j]) && AssignedUuid(calls, j) == u)
                <==> IsCreate(rows0[id]) && id !in calls.failing)
  {
    if IsCreate(rows0[id]) && id !in calls.failing {
      assert id in PickedIds(rows0);
      assert id in Elements(calls.queryOrder);
    }
  }

  lemma GoneIsOwn(rows0: map<RowId, Row>, known: set<Uuid>, calls: Calls, id: RowId)
    requires UuidsDistinct(rows0) && id in rows0 && !IsPlaceholder(rows0[id].uuid)
    ensures rows0[id].uuid in Gone(rows0, known, calls, rows0.Keys) <==>
            rows0[id].status.PendingDelete? && PushOk(known, calls, id, rows0[id])
  {
    if rows0[id].status.PendingDelete? && PushOk(known, calls, id, rows0[id]) {
      assert id in Effective(rows0, known, calls, rows0.Keys);
    }
  }

  /** If every row's rule stays present, so that nothing was deleted, the rules of the table
      form one block in sequence order. */
  lemma ApplyOrdersFirewall(rows0: map<RowId, Row>, staged0: Ruleset, live0: Ruleset, issued: set<Uuid>, calls: Calls,
                            rows: map<RowId, Row>, staged: Ruleset, live: Ruleset)
      returns (ids: seq<RowId>)
    requires Ready(rows0, staged0, issued, calls)
    requires Applied(rows0, staged0, live0, calls, rows, staged, live)
    requires PickedIds(rows0) != {} && !calls.listFails && calls.failingMoves == {}
    requires forall id :: id in rows0 ==> StaysPresent(staged0.rules.Keys, calls, id, rows0[id])
    ensures IsSequenceOrder(rows0, ids)
    ensures var pushed := RowsPushed(rows0, staged0.rules.Keys, calls, rows0.Keys);
            && (forall id :: id in ids ==> id in pushed)
            && IsBlock(staged.order, UuidsOf(pushed, ids)) && InOrder(staged.order, UuidsOf(pushed, ids))
  {
    var known := staged0.rules.Keys;
    var pushed, order := RowsPushed(rows0, known, calls, rows0.Keys), PushedOrder(rows0, staged0.order, known, calls);
    hide Ready, StaysPresent, PushedOrder, RowsDone, Contents;
    ids :| OrderVia(pushed, order, calls, staged.order, ids);
    AllStayPresent(rows0, staged0, issued, calls, ids);
    AllPresentReachesDatabaseOrder(order, UuidsOf(pushed, ids));
    SameSequenceOrder(rows0, known, calls, ids);
  }

  lemma AllStayPresent(rows0: map<RowId, Row>, staged0: Ruleset, issued: set<Uuid>, calls: Calls, ids: seq<RowId>)
    requires Ready(rows0, staged0, issued, calls) && forall id :: id in ids ==> id in rows0
    requires forall id :: id in rows0 ==> StaysPresent(staged0.rules.Keys, calls, id, rows0[id])
    ensures var known := staged0.rules.Keys;
            forall u :: u in UuidsOf(RowsPushed(rows0, known, calls, rows0.Keys), ids) ==>
              u in PushedOrder(rows0, staged0.order, known, calls)
  {
    hide Ready, StaysPresent, PushedOrder;
    var known := staged0.rules.Keys;
    var pushed := RowsPushed(rows0, known, calls, rows0.Keys);
    forall k | 0 <= k < |ids|
      ensures pushed[ids[k]].uuid in PushedOrder(rows0, staged0.order, known, calls)
    {
      PresentAfterPush(rows0, staged0, issued, calls, ids[k]);
    }
  }

  lemma SameSequenceOrder(rows: map<RowId, Row>, known: set<Uuid>, calls: Calls, ids: seq<RowId>)
    requires IsSequenceOrder(RowsPushed(rows, known, calls, rows.Keys), ids)
    ensures IsSequenceOrder(rows, ids)
  {
    var pushed := RowsPushed(rows, known, calls, rows.Keys);
    assert forall id :: id in rows ==> pushed[id].fields == rows[id].fields;
  }

  /** Rules no row of the table holds keep their relative order, whatever fails. */
  lemma ForeignRulesKeepOrder(rows0: map<RowId, Row>, staged0: Ruleset, live0: Ruleset, issued: set<Uuid>, calls: Calls,
                              rows: map<RowId, Row>, staged: Ruleset, live: Ruleset)
    requires Ready(rows0, staged0, issued, calls)
    requires Applied(rows0, staged0, live0, calls, rows, staged, live)
    ensures KeepsOrder(staged0.order, staged.order, Held(RowsPushed(rows0, staged0.rules.Keys, calls, rows0.Keys)))
  {
    if PickedIds(rows0) != {} {
      var known := staged0.rules.Keys;
      var pushed, order := RowsPushed(rows0, known, calls, rows0.Keys), PushedOrder(rows0, staged0.order, known, calls);
      var ids :| OrderVia(pushed, order, calls, staged.order, ids);
      PushesKeepOrder(rows0, staged0, issued, calls);
      ReorderKeepsForeign(staged0.order, order, pushed, ids, calls.failingMoves);
    }
  }

  lemma PushesKeepOrder(rows0: map<RowId, Row>, staged0: Ruleset, issued: set<Uuid>, calls: Calls)
    requires Ready(rows0, staged0, issued, calls)
    ensures KeepsOrder(staged0.order, PushedOrder(rows0, staged0.order, staged0.rules.Keys, calls), {})
  {
    var known := staged0.rules.Keys;
    var added := Created(rows0, known, calls, calls.queryOrder);
    forall u | u in added
      ensures u !in staged0.order
    {
      CreatedElements(rows0, known, calls, calls.queryOrder, u);
      assert u in staged0.order ==> u in Elements(staged0.order);
    }
    WithoutKeepsOrder(staged0.order, Gone(rows0, known, calls, rows0.Keys), added);
  }

  lemma ReorderKeepsForeign(before: seq<Uuid>, mid: seq<Uuid>, pushed: map<RowId, Row>, ids: seq<RowId>,
                            failing: set<nat>)
    requires (forall id :: id in ids ==> id in pushed) && Distinct(mid) && Distinct(UuidsOf(pushed, ids))
    requires KeepsOrder(before, mid, {})
    ensures KeepsOrder(before, mid, Held(pushed))
    ensures KeepsOrder(before, Reorder(mid, UuidsOf(pushed, ids), failing, 0), Held(pushed))
  {
    var desired := UuidsOf(pushed, ids);
    var r := Reorder(mid, desired, failing, 0);
    ReorderEffect(mid, desired, failing, 0);
    forall x, y | x !in Held(pushed) && y !in Held(pushed) && x in r && y in r && Before(before, x, y)
      ensures Before(r, x, y)
    {
      assert x in Elements(r) && y in Elements(r);
      assert Before(mid, x, y);
      assert forall j :: 0 <= j < |desired| ==> desired[j] == pushed[ids[j]].uuid;
    }
  }

  // ---------------------------------------------------------------- apply, then sync

  /** After a successful apply the first sync stores the normal form of each pushed row, so it
      leaves exactly the rows alone whose columns are normal already; for rows
      with plain flags that row's payload is what the appliance already holds, so pushing it
      again changes nothing. */
  lemma SyncAfterApplyNormalises(rows0: map<RowId, Row>, staged0: Ruleset, live0: Ruleset, issued: set<Uuid>,
                                 calls: Calls, rows: map<RowId, Row>, staged: Ruleset, live: Ruleset, id: RowId,
                                 base: RowId, now: nat, rows2: map<RowId, Row>, nextId2: RowId, result2: SyncResult)
    requires Ready(rows0, staged0, issued, calls) && AllSucceed(rows0, staged0.rules.Keys, calls)
    requires Applied(rows0, staged0, live0, calls, rows, staged, live)
    requires IdsBelow(rows, base) && staged.Valid()
    requires Completed(rows, base, staged, now, rows2, nextId2, result2)
    requires id in rows0 && rows0[id].status.Pending?
    ensures id in rows2 && rows2[id].status.Synced? && rows2[id].fields == Normalised(rows0[id].fields)
    ensures rows2[id].fields == rows0[id].fields <==> Normal(rows0[id].fields)
    ensures PlainFlags(rows0[id].fields) ==>
              staged.Replace(rows2[id].uuid, Payload(rows2[id].fields)) == staged
  {
    PushedRowIsLive(rows0, staged0, live0, issued, calls, rows, staged, live, id);
    NormalRowsStay(rows0[id].fields);
    SyncOfPushedRow(rows, base, staged, now, rows2, nextId2, result2, id);
  }

  lemma SyncOfPushedRow(rows: map<RowId, Row>, base: RowId, staged: Ruleset, now: nat,
                        rows2: map<RowId, Row>, nextId2: RowId, result2: SyncResult, id: RowId)
    requires IdsBelow(rows, base) && staged.Valid()
    requires Completed(rows, base, staged, now, rows2, nextId2, result2)
    requires id in rows && rows[id].status.Synced? && rows[id].uuid in staged.rules
    requires staged.rules[rows[id].uuid] == Payload(rows[id].fields)
    ensures id in rows2 && rows2[id].status.Synced? && rows2[id].uuid == rows[id].uuid
    ensures rows2[id].fields == Normalised(rows[id].fields)
    ensures PlainFlags(rows[id].fields) ==> staged.Replace(rows2[id].uuid, Payload(rows2[id].fields)) == staged
  {
    var f := rows[id].fields;
    PayloadParses(f);
    ListedAs(staged.rules, rows[id].uuid, Normalised(f));
    SyncOfListedRow(rows, base, staged, now, rows2, nextId2, result2, id, Normalised(f));
    if PlainFlags(f) {
      PayloadNormalForm(f);
      ReplaceSame(staged, rows[id].uuid);
    }
  }

  lemma SyncOfListedRow(rows: map<RowId, Row>, base: RowId, staged: Ruleset, now: nat,
                        rows2: map<RowId, Row>, nextId2: RowId, result2: SyncResult, id: RowId, f: Fields)
    requires IdsBelow(rows, base) && staged.Valid()
    requires Completed(rows, base, staged, now, rows2, nextId2, result2)
    requires id in rows && rows[id].status.Synced? && rows[id].uuid in Listing(staged.rules)
    requires Listing(staged.rules)[rows[id].uuid] == f
    ensures id in rows2 && rows2[id].status.Synced? && rows2[id].uuid == rows[id].uuid && rows2[id].fields == f
  {
    OldRow(rows, base, staged, now, rows2, nextId2, result2, id);
  }

  lemma ReplaceSame(staged: Ruleset, u: Uuid)
    requires u in staged.rules
    ensures staged.Replace(u, staged.rules[u]) == staged
  {
  }

  lemma ListedAs(rules: map<Uuid, RuleDict>, u: Uuid, f: Fields)
    requires u in rules && ParseRule(rules[u]) == Some(f)
    ensures u in Listing(rules) && Listing(rules)[u] == f
  {
  }
}
