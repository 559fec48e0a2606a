/** The two sides of the firewall manager: the rule table of one tenant and its OPNsense
    appliance with a staged and a live rule list. */
module FirewallModel {
  import opened Text
  import opened RuleRecord
  import opened RuleOrder

  type Uuid = string
  type RowId = nat

  datatype Status = Synced | Pending | PendingDelete | Failed

  datatype Row = Row(
    uuid: Uuid,
    fields: Fields,
    status: Status,
    error: Option<string>,
    syncedAt: Option<nat>)

  /** Rows created through the API carry a made-up uuid until OPNsense assigns a real one. */
  predicate IsPlaceholder(uuid: Uuid) {
    "pending" <= uuid
  }

  /** The uuids that the API makes up for new rows are such ones. */
  lemma GivenPlaceholder(uuid: Uuid)
    requires |uuid| >= 7 && uuid[..7] == "pending"
    ensures IsPlaceholder(uuid)
  {
    assert "pending" <= uuid[..7];
  }

  // ---------------------------------------------------------------- the appliance

  /** One version of the rule list: the order of the uuids and what is stored under each. */
  datatype Ruleset = Ruleset(order: seq<Uuid>, rules: map<Uuid, RuleDict>) {
    ghost predicate Valid() {
      Distinct(order) && Elements(order) == rules.Keys
    }

    function Append(uuid: Uuid, rule: RuleDict): Ruleset {
      Ruleset(order + [uuid], rules[uuid := rule])
    }

    function Replace(uuid: Uuid, rule: RuleDict): Ruleset {
      Ruleset(order, rules[uuid := rule])
    }

    function Drop(uuid: Uuid): Ruleset
      requires uuid in order
    {
      Ruleset(Remove(order, uuid), rules - {uuid})
    }
  }

  lemma AppendIsValid(s: Ruleset, uuid: Uuid, rule: RuleDict)
    requires s.Valid() && uuid !in s.rules
    ensures s.Append(uuid, rule).Valid() && KeepsOrder(s.order, s.Append(uuid, rule).order, {})
  {
    var t := s.order + [uuid];
    assert uuid !in Elements(s.order);
    AppendElements(s.order, uuid);
    forall x, y | Before(s.order, x, y)
      ensures Before(t, x, y)
    {
      var i, j :| 0 <= i < j < |s.order| && s.order[i] == x && s.order[j] == y;
      assert t[i] == x && t[j] == y;
    }
  }

  lemma ReplaceIsValid(s: Ruleset, uuid: Uuid, rule: RuleDict)
    requires s.Valid() && uuid in s.rules
    ensures s.Replace(uuid, rule).Valid() && KeepsOrder(s.order, s.Replace(uuid, rule).order, {})
  {
  }

  lemma DropIsValid(s: Ruleset, uuid: Uuid)
    requires s.Valid() && uuid in s.order
    ensures s.Drop(uuid).Valid() && KeepsOrder(s.order, s.Drop(uuid).order, {})
  {
    var rest, k := Remove(s.order, uuid), IndexOf(s.order, uuid);
    RemoveSkips(s.order, uuid);
    SkipsDistinct(s.order, rest, k);
    forall x
      ensures x in Elements(rest) <==> x in Elements(s.order) - {uuid}
    {
      SkipsIn(s.order, rest, k, x);
    }
    forall x, y | x in rest && y in rest && Before(s.order, x, y)
      ensures Before(rest, x, y)
    {
      SkipsBefore(s.order, rest, k, x, y);
    }
  }

  class Firewall {
    var staged: Ruleset
    var live: Ruleset
    // every uuid the appliance has ever assigned or shown
    ghost var issued: set<Uuid>

    ghost predicate Valid()
      reads this
    {
      && staged.Valid() && live.Valid()
      && staged.rules.Keys <= issued && live.rules.Keys <= issued
      && forall u :: u in issued ==> !IsPlaceholder(u)
    }

    /** `add_rule`: `uuid` is the identifier the appliance would assign. */
    method AddRule(payload: RuleDict, uuid: Uuid, throws: bool) returns (ok: bool)
      requires Valid() && uuid !in issued && !IsPlaceholder(uuid)
      modifies this`staged, this`issued
      ensures Valid() && ok == !throws
      ensures staged == (if ok then old(staged).Append(uuid, payload) else old(staged))
      ensures issued == (if ok then old(issued) + {uuid} else old(issued))
      ensures KeepsOrder(old(staged).order, staged.order, {})
    {
      if throws {
        return false;
      }
      AppendIsValid(staged, uuid, payload);
      staged := staged.Append(uuid, payload);
      issued := issued + {uuid};
      ok := true;
    }

    /** `set_rule`: rejected when the appliance does not know the uuid. */
    method SetRule(uuid: Uuid, payload: RuleDict, throws: bool) returns (ok: bool)
      requires Valid()
      modifies this`staged
      ensures Valid() && ok == (!throws && uuid in old(staged).rules)
      ensures staged == (if ok then old(staged).Replace(uuid, payload) else old(staged))
      ensures KeepsOrder(old(staged).order, staged.order, {})
    {
      ok := !throws && uuid in staged.rules;
      if ok {
        ReplaceIsValid(staged, uuid, payload);
        staged := staged.Replace(uuid, payload);
      }
    }

    /** `del_rule`: rejected when the appliance does not know the uuid. */
    method DelRule(uuid: Uuid, throws: bool) returns (ok: bool)
      requires Valid()
      modifies this`staged
      ensures Valid() && ok == (!throws && uuid in old(staged).rules)
      ensures uuid in old(staged).rules ==> uuid in old(staged).order
      ensures staged == (if ok then old(staged).Drop(uuid) else old(staged))
      ensures KeepsOrder(old(staged).order, staged.order, {})
    {
      assert forall u :: u in staged.rules ==> u in Elements(staged.order);
      ok := !throws && uuid in staged.rules;
      if ok {
        DropIsValid(staged, uuid);
        staged := staged.Drop(uuid);
      }
    }

    /** `move_rule_before`: rejected when either rule is unknown. */
    method MoveRuleBefore(uuid: Uuid, reference: Uuid, throws: bool) returns (ok: bool)
      requires Valid() && uuid != reference
      modifies this`staged
      ensures Valid() && ok == (!throws && uuid in old(staged).order && reference in old(staged).order)
      ensures staged == if ok then old(staged).(order := MoveBefore(old(staged).order, uuid, reference))
                    else old(staged)
    {
      ok := !throws && uuid in staged.order && reference in staged.order;
      if ok {
        MoveBeforeShape(staged.order, uuid, reference);
        staged := staged.(order := MoveBefore(staged.order, uuid, reference));
      }
    }

    /** `apply_rules`: the staged list becomes the live one. */
    method ApplyRules(throws: bool) returns (ok: bool)
      requires Valid()
      modifies this`live
      ensures Valid() && ok == !throws && live == if ok then staged else old(live)
    {
      ok := !throws;
      if ok {
        live := staged;
      }
    }
  }

  // ---------------------------------------------------------------- the table

  ghost predicate UuidsDistinct(rows: map<RowId, Row>) {
    forall i, j :: i in rows && j in rows && rows[i].uuid == rows[j].uuid ==> i == j
  }

  ghost predicate IdsBelow(rows: map<RowId, Row>, bound: RowId) {
    forall id :: id in rows ==> id < bound
  }

  /** `ids` lists all rows by ascending sequence; the database breaks ties as it likes. */
  ghost predicate IsSequenceOrder(rows: map<RowId, Row>, ids: seq<RowId>) {
    && Distinct(ids) && Elements(ids) == rows.Keys
    && forall i, j :: 0 <= i < j < |ids| && ids[i] in rows && ids[j] in rows ==>
         rows[ids[i]].fields.sequence <= rows[ids[j]].fields.sequence
  }

  /** `ids` is the sorted part of the table, all of it no later than the rows in `todo`. */
  ghost predicate SortedPart(rows: map<RowId, Row>, ids: seq<RowId>, todo: set<RowId>) {
    && todo <= rows.Keys && Distinct(ids) && Elements(ids) == rows.Keys - todo
    && (forall i, j :: 0 <= i < j < |ids| && ids[i] in rows && ids[j] in rows ==>
          rows[ids[i]].fields.sequence <= rows[ids[j]].fields.sequence)
    && (forall i, id :: 0 <= i < |ids| && ids[i] in rows && id in todo ==>
          rows[ids[i]].fields.sequence <= rows[id].fields.sequence)
  }

  lemma SortedPartStep(rows: map<RowId, Row>, ids: seq<RowId>, todo: set<RowId>, id: RowId)
    requires SortedPart(rows, ids, todo) && id in todo
    requires forall other :: other in todo ==> rows[id].fields.sequence <= rows[other].fields.sequence
    ensures SortedPart(rows, ids + [id], todo - {id})
  {
    AppendElements(ids, id);
    assert id !in Elements(ids);
  }

  class RuleTable {
    var rows: map<RowId, Row>
    // the value the serial primary key gives to the next inserted row
    var nextId: RowId

    ghost predicate Valid()
      reads this
    {
      UuidsDistinct(rows) && IdsBelow(rows, nextId)
    }

    /** `query(...).order_by(sequence).all()` */
    method BySequence() returns (ids: seq<RowId>)
      ensures IsSequenceOrder(rows, ids)
    {
      ids := [];
      var todo := rows.Keys;
      while todo != {}
        invariant SortedPart(rows, ids, todo)
        decreases |todo|
      {
        var id := Least(todo);
        SortedPartStep(rows, ids, todo, id);
        ids := ids + [id];
        todo := todo - {id};
      }
    }

    method Least(candidates: set<RowId>) returns (id: RowId)
      requires candidates != {} && candidates <= rows.Keys
      ensures id in candidates
      ensures forall other :: other in candidates ==> rows[id].fields.sequence <= rows[other].fields.sequence
    {
      id :| id in candidates;
      var todo := candidates - {id};
      while todo != {}
        invariant todo <= candidates && id in candidates
        invariant forall other :: other in candidates - todo ==> rows[id].fields.sequence <= rows[other].fields.sequence
        decreases |todo|
      {
        var other :| other in todo;
        todo := todo - {other};
        if rows[other].fields.sequence < rows[id].fields.sequence {
          id := other;
        }
      }
    }
  }
}
