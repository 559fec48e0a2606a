/** One table, one appliance and one pending deletion, on which the apply task leaves the rules in
    the wrong order, or leaves a deleted rule live. */
module ApplyExamples {
  import opened Text
  import opened RuleRecord
  import opened RuleOrder
  import opened FirewallModel
  import opened FirewallApply
  import opened FirewallTask
  import opened FirewallApi
  import opened ApplyProperties

  /** Three rules by sequence; the middle one is marked for deletion. */
  function Rows(f: Fields): map<RowId, Row> {
    map[1 := Row("a", f.(sequence := 100), Synced, None, None),
        2 := Row("x", f.(sequence := 200), PendingDelete, None, None),
        3 := Row("b", f.(sequence := 300), Synced, None, None)]
  }

  /** The appliance holds all three, the first and the last exchanged. */
  function Staged(rule: RuleDict): Ruleset {
    Ruleset(["b", "x", "a"], map["a" := rule, "b" := rule, "x" := rule])
  }

  /** Nothing fails but, perhaps, the reload. */
  function Quiet(reloadFails: bool): Calls {
    Calls(0, [2], {}, map[], map[], false, {}, reloadFails, "")
  }

  lemma Letters()
    ensures "a" != "b" && "a" != "x" && "b" != "x"
    ensures !IsPlaceholder("a") && !IsPlaceholder("b") && !IsPlaceholder("x")
  {
    assert "a"[0] == 'a' && "b"[0] == 'b' && "x"[0] == 'x' && "pending"[0] == 'p';
  }

  lemma Applicable(f: Fields, rule: RuleDict, reloadFails: bool)
    ensures Ready(Rows(f), Staged(rule), {"a", "b", "x"}, Quiet(reloadFails))
    ensures PickedIds(Rows(f)) == {2} && SequencesDistinct(Rows(f)) && IsSequenceOrder(Rows(f), [1, 2, 3])
  {
    RowsAreFine(f, reloadFails);
    StagedIsValid(rule);
  }

  lemma RowsAreFine(f: Fields, reloadFails: bool)
    ensures var rows, issued: set<Uuid>, calls := Rows(f), {"a", "b", "x"}, Quiet(reloadFails);
            && UuidsDistinct(rows) && UuidsIssued(rows, issued) && FreshUuids(rows, issued, calls)
            && PickedIds(rows) == {2} && Distinct(calls.queryOrder) && Elements(calls.queryOrder) == {2}
            && SequencesDistinct(rows) && IsSequenceOrder(rows, [1, 2, 3])
  {
    hide UuidsDistinct, UuidsIssued, FreshUuids, SequencesDistinct, IsSequenceOrder;
    UuidsAreFine(f, reloadFails);
    RowsInOrder(f);
    assert Elements([2]) == {2};
  }

  lemma UuidsAreFine(f: Fields, reloadFails: bool)
    ensures UuidsDistinct(Rows(f)) && UuidsIssued(Rows(f), {"a", "b", "x"})
    ensures FreshUuids(Rows(f), {"a", "b", "x"}, Quiet(reloadFails))
  {
    Letters();
  }

  lemma RowsInOrder(f: Fields)
    ensures SequencesDistinct(Rows(f)) && IsSequenceOrder(Rows(f), [1, 2, 3])
  {
    assert Elements([1, 2, 3]) == {1, 2, 3};
    assert Rows(f).Keys == {1, 2, 3};
  }

  lemma StagedIsValid(rule: RuleDict)
    ensures Staged(rule).Valid() && Staged(rule).rules.Keys == {"a", "b", "x"}
    ensures forall u :: u in {"a", "b", "x"} ==> !IsPlaceholder(u)
  {
    Letters();
    var order := ["b", "x", "a"];
    assert order[0] == "b" && order[1] == "x" && order[2] == "a";
    assert Elements(order) == {"a", "b", "x"};
  }

  /** The pushed order is what the deletion leaves: "b" before "a". */
  lemma Pushed(f: Fields, rule: RuleDict, reloadFails: bool)
    ensures var known := Staged(rule).rules.Keys;
            && PushedOrder(Rows(f), ["b", "x", "a"], known, Quiet(reloadFails)) == ["b", "a"]
            && (forall id :: id in [1, 2, 3] ==> id in RowsPushed(Rows(f), known, Quiet(reloadFails), Rows(f).Keys))
            && UuidsOf(RowsPushed(Rows(f), known, Quiet(reloadFails), Rows(f).Keys), [1, 2, 3]) == ["a", "x", "b"]
  {
    var rows, known, calls := Rows(f), Staged(rule).rules.Keys, Quiet(reloadFails);
    Letters();
    assert Effective(rows, known, calls, rows.Keys) == {2};
    assert Gone(rows, known, calls, rows.Keys) == {"x"};
    WithoutX();
    assert [2][..0] == [];
    assert Created(rows, known, calls, [2]) == [];
  }

  lemma WithoutX()
    ensures Without(["b", "x", "a"], {"x"}) == ["b", "a"]
  {
    Letters();
    assert ["b", "x", "a"][..2] == ["b", "x"] && ["b", "x"][..1] == ["b"] && ["b"][..0] == [];
    assert Without(["b"], {"x"}) == ["b"];
    assert Without(["b", "x"], {"x"}) == ["b"];
  }

  /** Every call succeeds, and still the two remaining rules end against their sequences. */
  lemma DeletionLeavesApplyUnordered(f: Fields, rule: RuleDict, live0: Ruleset,
                                     rows: map<RowId, Row>, staged: Ruleset, live: Ruleset)
    requires Applied(Rows(f), Staged(rule), live0, Quiet(false), rows, staged, live)
    ensures Ready(Rows(f), Staged(rule), {"a", "b", "x"}, Quiet(false))
    ensures live == staged && !InOrder(staged.order, ["a", "x", "b"])
  {
    Applicable(f, rule, false);
    Pushed(f, rule, false);
    ApplyOrderFromInputs(Rows(f), Staged(rule), live0, Quiet(false), rows, staged, live, [1, 2, 3]);
    AnchorsExchanged();
    LiveUnlessReloadFails(f, rule, live0, rows, staged, live);
  }

  lemma AnchorsExchanged()
    ensures !AnchorsInOrder(["b", "a"], ["a", "x", "b"])
  {
    var order, desired := ["b", "a"], ["a", "x", "b"];
    Letters();
    assert Anchor(order, desired, 0) && Anchor(order, desired, 2);
    assert !Before(order, desired[0], desired[2]);
  }

  lemma LiveUnlessReloadFails(f: Fields, rule: RuleDict, live0: Ruleset,
                              rows: map<RowId, Row>, staged: Ruleset, live: Ruleset)
    requires Applied(Rows(f), Staged(rule), live0, Quiet(false), rows, staged, live)
    ensures live == staged
  {
    Letters();
    assert PushOk(Staged(rule).rules.Keys, Quiet(false), 2, Rows(f)[2]);
    assert 2 in Effective(Rows(f), Staged(rule).rules.Keys, Quiet(false), Rows(f).Keys);
  }

  /** The reload fails: row 2 is gone from the table, rule "x" is still enforced, and the next
      apply, with nothing pending, leaves it so. */
  lemma DeletedRuleStaysLive(f: Fields, rule: RuleDict, live0: Ruleset, rows: map<RowId, Row>, staged: Ruleset,
                             live: Ruleset, calls: Calls, rows2: map<RowId, Row>, staged2: Ruleset, live2: Ruleset)
    requires "x" in live0.rules
    requires Applied(Rows(f), Staged(rule), live0, Quiet(true), rows, staged, live)
    requires Applied(rows, staged, live, calls, rows2, staged2, live2)
    ensures Ready(Rows(f), Staged(rule), {"a", "b", "x"}, Quiet(true))
    ensures 2 !in rows2 && "x" !in staged2.rules && "x" in live2.rules
  {
    hide Applied, Ready, Rows, Staged;
    Applicable(f, rule, true);
    DeletionIsPushed(f, rule);
    RowFate(Rows(f), Staged(rule), live0, Quiet(true), rows, staged, live, 2);
    DroppedRuleStaysLive(Rows(f), Staged(rule), live0, Quiet(true), rows, staged, live, 2);
    GoneFromStaged(f, rule, live0, rows, staged, live);
    EveryPickedRowIsResolved(Rows(f), Staged(rule), live0, Quiet(true), rows, staged, live);
    NothingPendingNothingReloaded(rows, staged, live, calls, rows2, staged2, live2);
  }

  lemma DeletionIsPushed(f: Fields, rule: RuleDict)
    ensures PushOk(Staged(rule).rules.Keys, Quiet(true), 2, Rows(f)[2])
    ensures 2 in Rows(f) && Rows(f)[2].uuid == "x" && Rows(f)[2].status.PendingDelete?
    ensures 2 in Effective(Rows(f), Staged(rule).rules.Keys, Quiet(true), Rows(f).Keys)
  {
    Letters();
  }

  lemma GoneFromStaged(f: Fields, rule: RuleDict, live0: Ruleset, rows: map<RowId, Row>, staged: Ruleset, live: Ruleset)
    requires Applied(Rows(f), Staged(rule), live0, Quiet(true), rows, staged, live)
    ensures "x" !in staged.rules
  {
    DeletionIsPushed(f, rule);
  }
}
