/** `reconcile_firewall_rules_task`: the table is emptied and rebuilt from the appliance. */
module FirewallReconcile {
  import opened Text
  import opened RuleRecord
  import opened RuleOrder
  import opened FirewallModel

  datatype ReconcileResult = Reconciled(count: nat) | ReconcileError

  // ---------------------------------------------------------------- sorting the listing

  /** `int(r.get("sequence", "0"))` for every listed rule that has one. */
  function SortKeys(rules: map<Uuid, RuleDict>): map<Uuid, int> {
    map u | u in rules && ParseSequence(rules[u].sequence, 0).Some? :: ParseSequence(rules[u].sequence, 0).value
  }

  /** Puts `x` behind every element whose key is not larger. */
  function InsertByKey(s: seq<Uuid>, x: Uuid, key: map<Uuid, int>): seq<Uuid>
    requires x in key && forall u :: u in s ==> u in key
  {
    if s == [] || key[s[|s| - 1]] <= key[x] then s + [x]
    else InsertByKey(s[..|s| - 1], x, key) + [s[|s| - 1]]
  }

  /** Python's stable `sorted(..., key=...)`. */
  function SortByKey(s: seq<Uuid>, key: map<Uuid, int>): (r: seq<Uuid>)
    requires forall u :: u in s ==> u in key
    ensures forall u :: u in r <==> u in s
  {
    if s == [] then []
    else
      var r := SortByKey(s[..|s| - 1], key);
      assert s == s[..|s| - 1] + [s[|s| - 1]];
      InsertIn(r, s[|s| - 1], key);
      InsertByKey(r, s[|s| - 1], key)
  }

  lemma {:induction false} InsertIn(s: seq<Uuid>, x: Uuid, key: map<Uuid, int>)
    requires x in key && forall u :: u in s ==> u in key
    ensures forall u :: u in InsertByKey(s, x, key) <==> u in s || u == x
  {
    if !(s == [] || key[s[|s| - 1]] <= key[x]) {
      InsertIn(s[..|s| - 1], x, key);
      assert s == s[..|s| - 1] + [s[|s| - 1]];
    }
  }

  ghost predicate KeysAscend(s: seq<Uuid>, key: map<Uuid, int>) {
    forall i, j :: 0 <= i < j < |s| && s[i] in key && s[j] in key ==> key[s[i]] <= key[s[j]]
  }

  lemma InsertShift(s: seq<Uuid>, k: nat, x: Uuid)
    requires k < |s|
    ensures (s[..|s| - 1][..k] + [x] + s[..|s| - 1][k..]) + [s[|s| - 1]] == s[..k] + [x] + s[k..]
  {
    assert s[..|s| - 1][..k] == s[..k];
    assert s[..|s| - 1][k..] + [s[|s| - 1]] == s[k..];
  }

  /** Where an inserted element lands. */
  lemma {:induction false} InsertPosition(s: seq<Uuid>, x: Uuid, key: map<Uuid, int>) returns (k: nat)
    requires x in key && (forall u :: u in s ==> u in key) && KeysAscend(s, key)
    ensures k <= |s| && InsertByKey(s, x, key) == s[..k] + [x] + s[k..]
    ensures forall i :: 0 <= i < k ==> s[i] in key && key[s[i]] <= key[x]
    ensures forall i :: k <= i < |s| ==> s[i] in key && key[s[i]] > key[x]
  {
    if s == [] || key[s[|s| - 1]] <= key[x] {
      k := |s|;
      assert s[..k] == s && s[k..] == [];
    } else {
      k := InsertPosition(s[..|s| - 1], x, key);
      InsertShift(s, k, x);
    }
  }

  /** The sorted list ascends, has no repeats, and rules with equal keys keep their list order. */
  lemma {:induction false} SortIsStable(s: seq<Uuid>, key: map<Uuid, int>)
    requires Distinct(s) && forall u :: u in s ==> u in key
    ensures var r := SortByKey(s, key);
            && |r| == |s| && Distinct(r) && KeysAscend(r, key)
            && StableSort(s, r, key)
  {
    if s != [] {
      var front, last := s[..|s| - 1], s[|s| - 1];
      SortIsStable(front, key);
      assert s == front + [last];
      SortStep(front, SortByKey(front, key), last, key);
    }
  }

  ghost predicate StableSort(s: seq<Uuid>, r: seq<Uuid>, key: map<Uuid, int>) {
    forall x, y :: Before(s, x, y) && x in key && y in key && key[x] <= key[y] ==> Before(r, x, y)
  }

  lemma SortStep(front: seq<Uuid>, sorted: seq<Uuid>, last: Uuid, key: map<Uuid, int>)
    requires last !in front && last in key && forall u :: u in front ==> u in key
    requires |sorted| == |front| && Distinct(sorted) && KeysAscend(sorted, key) && StableSort(front, sorted, key)
    requires forall u :: u in sorted <==> u in front
    ensures var r := InsertByKey(sorted, last, key);
            |r| == |front| + 1 && Distinct(r) && KeysAscend(r, key) && StableSort(front + [last], r, key)
  {
    var r := InsertByKey(sorted, last, key);
    var k := InsertPosition(sorted, last, key);
    InsertedSkips(sorted, r, last, k);
    SkipsDistinct(r, sorted, k);
    InsertedAscends(sorted, r, last, k, key);
    forall x, y | Before(front + [last], x, y) && x in key && y in key && key[x] <= key[y]
      ensures Before(r, x, y)
    {
      BeforeAppended(front, last, x, y);
      InsertedStable(sorted, r, last, k, key, x, y);
    }
  }

  lemma InsertedAscends(sorted: seq<Uuid>, r: seq<Uuid>, last: Uuid, k: nat, key: map<Uuid, int>)
    requires Skips(r, sorted, k) && r[k] == last && last in key && KeysAscend(sorted, key)
    requires forall i :: 0 <= i < |sorted| ==> sorted[i] in key && (i < k <==> key[sorted[i]] <= key[last])
    ensures KeysAscend(r, key)
  {
    forall i, j | 0 <= i < j < |r|
      ensures r[i] in key && r[j] in key && key[r[i]] <= key[r[j]]
    {
      assert i != k ==> r[i] == sorted[if i < k then i else i - 1];
      assert j != k ==> r[j] == sorted[if j < k then j else j - 1];
    }
  }

  lemma InsertedStable(sorted: seq<Uuid>, r: seq<Uuid>, last: Uuid, k: nat, key: map<Uuid, int>, x: Uuid, y: Uuid)
    requires Skips(r, sorted, k) && r[k] == last && last in key && last !in sorted
    requires forall i :: 0 <= i < |sorted| ==> sorted[i] in key && (i < k <==> key[sorted[i]] <= key[last])
    requires x in sorted && x in key && y in key && key[x] <= key[y]
    requires y == last || Before(sorted, x, y)
    ensures Before(r, x, y)
  {
    if y == last {
      var i :| 0 <= i < |sorted| && sorted[i] == x;
      assert r[i] == x && r[k] == y;
    } else {
      SkipsBefore(r, sorted, k, x, y);
    }
  }

  lemma InsertedSkips(s: seq<Uuid>, r: seq<Uuid>, x: Uuid, k: nat)
    requires k <= |s| && r == s[..k] + [x] + s[k..]
    ensures Skips(r, s, k) && r[k] == x
  {
  }

  lemma BeforeAppended(front: seq<Uuid>, last: Uuid, x: Uuid, y: Uuid)
    requires last !in front && Before(front + [last], x, y)
    ensures x in front
    ensures if y == last then true else Before(front, x, y)
  {
    var s := front + [last];
    var i, j :| 0 <= i < j < |s| && s[i] == x && s[j] == y;
    assert front[i] == x;
    if j < |front| {
      assert front[j] == y;
    }
  }

  // ---------------------------------------------------------------- the rebuilt table

  /** The columns of every listed rule, except for its sequence. */
  function Columns(rules: map<Uuid, RuleDict>): map<Uuid, Fields> {
    map u | u in rules :: ParseColumns(rules[u], 0)
  }

  function RebuiltRow(columns: map<Uuid, Fields>, now: nat, u: Uuid, position: nat): Row
    requires u in columns
  {
    Row(u, columns[u].(sequence := (position + 1) * 100), Synced, None, Some(now))
  }

  /** New rows for `sorted`, with consecutive keys from `base` and sequences 100, 200, ... */
  function RebuiltRows(columns: map<Uuid, Fields>, now: nat, base: RowId, sorted: seq<Uuid>): (r: map<RowId, Row>)
    requires forall u :: u in sorted ==> u in columns
    ensures forall id :: id in r <==> base <= id < base + |sorted|
    ensures forall id :: id in r ==>
              sorted[id - base] in columns && r[id] == RebuiltRow(columns, now, sorted[id - base], id - base)
  {
    if sorted == [] then map[]
    else
      var last := |sorted| - 1;
      RebuiltRows(columns, now, base, sorted[..last])[base + last := RebuiltRow(columns, now, sorted[last], last)]
  }

  /** One iteration of the rebuilding loop. */
  lemma RebuildStep(columns: map<Uuid, Fields>, now: nat, base: RowId, sorted: seq<Uuid>, i: nat)
    requires i < |sorted| && forall u :: u in sorted ==> u in columns
    ensures RebuiltRows(columns, now, base, sorted[..i + 1])
            == RebuiltRows(columns, now, base, sorted[..i])[base + i := RebuiltRow(columns, now, sorted[i], i)]
  {
    assert sorted[..i + 1][..i] == sorted[..i];
  }

  /** The listing can be sorted: every sequence is missing or accepted by `int`. */
  ghost predicate Sortable(rules: map<Uuid, RuleDict>) {
    SortKeys(rules).Keys == rules.Keys
  }

  /** The order in which reconcile inserts the rows: the listing, stably sorted. */
  ghost predicate InsertionOrder(staged: Ruleset, sorted: seq<Uuid>) {
    && (forall u :: u in staged.order ==> u in Columns(staged.rules) && u in SortKeys(staged.rules))
    && sorted == SortByKey(staged.order, SortKeys(staged.rules))
  }

  /** A completed reconcile. */
  ghost predicate Rebuilt(staged: Ruleset, now: nat, base: RowId, rows: map<RowId, Row>, nextId: RowId,
                          sorted: seq<Uuid>) {
    && InsertionOrder(staged, sorted) && (forall u :: u in sorted ==> u in Columns(staged.rules))
    && nextId == base + |sorted| && rows == RebuiltRows(Columns(staged.rules), now, base, sorted)
  }

  method ReconcileFirewallRules(db: RuleTable, fw: Firewall, listFails: bool, now: nat)
      returns (result: ReconcileResult)
    requires fw.Valid()
    modifies db
    ensures result.ReconcileError? <==>
              listFails || exists u :: u in fw.staged.rules && ParseSequence(fw.staged.rules[u].sequence, 0).None?
    ensures result.ReconcileError? ==>
              db.rows == (if listFails then old(db.rows) else map[]) && db.nextId == old(db.nextId)
    ensures result.Reconciled? ==>
              exists sorted :: Rebuilt(fw.staged, now, old(db.nextId), db.rows, db.nextId, sorted)
                               && result == Reconciled(|sorted|)
  {
    if listFails {
      return ReconcileError;
    }
    var order, rules := fw.staged.order, fw.staged.rules;
    db.rows := map[];
    // the deletion is committed before the listing is sorted
    var keys := SortKeys(rules);
    ListedHaveKeys(fw.staged);
    SortableMeans(rules);
    if keys.Keys != rules.Keys {
      return ReconcileError;
    }
    var sorted := SortByKey(order, keys);
    Rebuild(db, Columns(rules), sorted, now);
    assert Rebuilt(fw.staged, now, old(db.nextId), db.rows, db.nextId, sorted);
    result := Reconciled(|sorted|);
  }

  method Rebuild(db: RuleTable, columns: map<Uuid, Fields>, sorted: seq<Uuid>, now: nat)
    requires db.rows == map[] && forall u :: u in sorted ==> u in columns
    modifies db
    ensures db.rows == RebuiltRows(columns, now, old(db.nextId), sorted) && db.nextId == old(db.nextId) + |sorted|
  {
    var base := db.nextId;
    for i := 0 to |sorted|
      invariant db.nextId == base + i
      invariant db.rows == RebuiltRows(columns, now, base, sorted[..i])
    {
      RebuildStep(columns, now, base, sorted, i);
      db.rows := db.rows[db.nextId := RebuiltRow(columns, now, sorted[i], i)];
      db.nextId := db.nextId + 1;
    }
    assert sorted[..|sorted|] == sorted;
  }

  lemma ListedHaveKeys(staged: Ruleset)
    requires staged.Valid()
    ensures forall u :: u in staged.order ==> u in staged.rules
    ensures Sortable(staged.rules) ==> forall u :: u in staged.order ==> u in SortKeys(staged.rules)
  {
    assert forall u :: u in staged.order ==> u in Elements(staged.order);
  }

  // ---------------------------------------------------------------- what it establishes

  ghost function Consecutive(base: RowId, n: nat): (ids: seq<RowId>)
    ensures |ids| == n && forall i :: 0 <= i < n ==> ids[i] == base + i
  {
    seq(n, i requires 0 <= i < n => base + i)
  }

  lemma ConsecutiveElements(base: RowId, n: nat, rows: map<RowId, Row>)
    requires forall id :: id in rows <==> base <= id < base + n
    ensures Elements(Consecutive(base, n)) == rows.Keys
  {
    forall id | id in rows
      ensures id in Consecutive(base, n)
    {
      assert Consecutive(base, n)[id - base] == id;
    }
  }

  lemma RebuiltPair(columns: map<Uuid, Fields>, now: nat, base: RowId, sorted: seq<Uuid>, i: RowId, j: RowId)
    requires Distinct(sorted) && forall u :: u in sorted ==> u in columns
    requires base <= i < j < base + |sorted|
    ensures var rows := RebuiltRows(columns, now, base, sorted);
            && i in rows && j in rows && rows[i].uuid != rows[j].uuid
            && rows[i].fields.sequence < rows[j].fields.sequence
  {
  }

  lemma RebuiltIsOrdered(columns: map<Uuid, Fields>, now: nat, base: RowId, sorted: seq<Uuid>)
    requires Distinct(sorted) && forall u :: u in sorted ==> u in columns
    ensures var rows := RebuiltRows(columns, now, base, sorted);
            && UuidsDistinct(rows) && IdsBelow(rows, base + |sorted|)
            && IsSequenceOrder(rows, Consecutive(base, |sorted|))
            && (forall i, j :: i in rows && j in rows && i < j ==> rows[i].fields.sequence < rows[j].fields.sequence)
            && rows.Keys == Elements(Consecutive(base, |sorted|))
  {
    var rows := RebuiltRows(columns, now, base, sorted);
    ConsecutiveElements(base, |sorted|, rows);
    forall i, j | i in rows && j in rows && i < j
      ensures rows[i].uuid != rows[j].uuid && rows[i].fields.sequence < rows[j].fields.sequence
    {
      RebuiltPair(columns, now, base, sorted, i, j);
    }
  }

  lemma RebuiltRowIsSynced(columns: map<Uuid, Fields>, now: nat, base: RowId, sorted: seq<Uuid>, id: RowId)
    requires forall u :: u in sorted ==> u in columns
    requires id in RebuiltRows(columns, now, base, sorted)
    ensures var row := RebuiltRows(columns, now, base, sorted)[id];
            && base <= id < base + |sorted| && row.status.Synced? && row.uuid == sorted[id - base]
            && row.uuid in columns && row.error == None && row.syncedAt == Some(now)
  {
  }

  /** It ascends by remote sequence, lists every rule once, and keeps ties in list order. */
  lemma InsertionOrderIsSorted(staged: Ruleset, sorted: seq<Uuid>)
    requires staged.Valid() && InsertionOrder(staged, sorted)
    ensures |sorted| == |staged.order| && Distinct(sorted) && forall u :: u in sorted <==> u in staged.order
    ensures KeysAscend(sorted, SortKeys(staged.rules)) && StableSort(staged.order, sorted, SortKeys(staged.rules))
  {
    SortIsStable(staged.order, SortKeys(staged.rules));
  }

  lemma InsertionOrderIsDistinct(staged: Ruleset, sorted: seq<Uuid>)
    requires staged.Valid() && InsertionOrder(staged, sorted)
    ensures Distinct(sorted)
  {
    InsertionOrderIsSorted(staged, sorted);
  }

  /** The rebuilt table has strictly increasing sequences, and lists in insertion order. */
  lemma ReconcileEstablishesOrder(staged: Ruleset, now: nat, base: RowId, rows: map<RowId, Row>, nextId: RowId,
                                  sorted: seq<Uuid>)
    requires staged.Valid() && Rebuilt(staged, now, base, rows, nextId, sorted)
    ensures UuidsDistinct(rows) && IdsBelow(rows, nextId)
    ensures rows.Keys == Elements(Consecutive(base, |sorted|)) && IsSequenceOrder(rows, Consecutive(base, |sorted|))
    ensures forall i, j :: i in rows && j in rows && i < j ==> rows[i].fields.sequence < rows[j].fields.sequence
  {
    InsertionOrderIsDistinct(staged, sorted);
    RebuiltFacts(Columns(staged.rules), now, base, sorted, rows);
  }

  lemma RebuiltFacts(columns: map<Uuid, Fields>, now: nat, base: RowId, sorted: seq<Uuid>, rows: map<RowId, Row>)
    requires Distinct(sorted) && forall u :: u in sorted ==> u in columns
    requires rows == RebuiltRows(columns, now, base, sorted)
    ensures UuidsDistinct(rows) && IdsBelow(rows, base + |sorted|)
    ensures rows.Keys == Elements(Consecutive(base, |sorted|)) && IsSequenceOrder(rows, Consecutive(base, |sorted|))
    ensures forall i, j :: i in rows && j in rows && i < j ==> rows[i].fields.sequence < rows[j].fields.sequence
  {
    RebuiltIsOrdered(columns, now, base, sorted);
  }

  /** And every row is synced under its listed uuid, with the listed columns. */
  lemma ReconcileMirrorsListing(staged: Ruleset, now: nat, base: RowId, rows: map<RowId, Row>, nextId: RowId,
                                sorted: seq<Uuid>, id: RowId)
    requires Rebuilt(staged, now, base, rows, nextId, sorted) && id in rows
    ensures base <= id < nextId && rows[id].status.Synced? && rows[id].uuid == sorted[id - base]
    ensures rows[id].uuid in staged.rules
    ensures rows[id].fields == ParseColumns(staged.rules[rows[id].uuid], (id - base + 1) * 100)
    ensures Reads(staged.rules[rows[id].uuid].(sequence := Number((id - base + 1) * 100)), rows[id].fields)
    ensures rows[id].error == None && rows[id].syncedAt == Some(now)
  {
    hide ParseColumns, Reads;
    RebuiltRowIsSynced(Columns(staged.rules), now, base, sorted, id);
    SequenceOnly(staged.rules[rows[id].uuid], (id - base + 1) * 100);
    ReadsAtPlace(staged.rules[rows[id].uuid], (id - base + 1) * 100);
  }

  lemma ReadsAtPlace(d: RuleDict, sequence: int)
    ensures Reads(d.(sequence := Number(sequence)), ParseColumns(d, sequence))
  {
    hide Reads;
    ParseReads(d.(sequence := Number(sequence)));
  }

  /** The key a rule is sorted by: a missing sequence counts as 0. */
  ghost predicate SortsAs(d: RuleDict, key: int) {
    SequenceRead(if d.sequence.Absent? then Number(0) else d.sequence, key)
  }

  /** The listing can be sorted exactly when every sequence is missing or an integer, and then
      the rows are inserted in ascending order of those. */
  lemma ReconcileSorts(staged: Ruleset, sorted: seq<Uuid>)
    requires staged.Valid()
    ensures Sortable(staged.rules) <==> forall u :: u in staged.rules ==> exists key :: SortsAs(staged.rules[u], key)
    ensures InsertionOrder(staged, sorted) ==>
              forall i, j, m, n :: 0 <= i < j < |sorted| && sorted[i] in staged.rules && sorted[j] in staged.rules
                                   && SortsAs(staged.rules[sorted[i]], m) && SortsAs(staged.rules[sorted[j]], n) ==>
                m <= n
  {
    var keys := SortKeys(staged.rules);
    forall u | u in staged.rules
      ensures u in keys <==> exists key :: SortsAs(staged.rules[u], key)
      ensures forall key :: SortsAs(staged.rules[u], key) ==> u in keys && keys[u] == key
    {
      SortKeyOf(staged.rules[u]);
    }
    if InsertionOrder(staged, sorted) {
      InsertionOrderIsSorted(staged, sorted);
    }
  }

  lemma SortKeyOf(d: RuleDict)
    ensures ParseSequence(d.sequence, 0).Some? ==> SortsAs(d, ParseSequence(d.sequence, 0).value)
    ensures forall key :: SortsAs(d, key) ==> ParseSequence(d.sequence, 0) == Some(key)
  {
  }

  lemma SequenceOnly(d: RuleDict, sequence: int)
    ensures ParseColumns(d, 0).(sequence := sequence) == ParseColumns(d, sequence)
  {
  }

  /** Every listed rule gets exactly one row. */
  lemma ReconcileHoldsListing(staged: Ruleset, now: nat, base: RowId, rows: map<RowId, Row>, nextId: RowId,
                              sorted: seq<Uuid>, u: Uuid)
      returns (id: RowId)
    requires staged.Valid() && Rebuilt(staged, now, base, rows, nextId, sorted) && u in staged.rules
    ensures id in rows && rows[id].uuid == u
    ensures forall other :: other in rows && rows[other].uuid == u ==> other == id
    ensures |rows| == |staged.rules|
  {
    hide Rebuilt;
    id := RowOfListed(staged, now, base, rows, nextId, sorted, u);
    ReconcileEstablishesOrder(staged, now, base, rows, nextId, sorted);
    RebuiltCount(staged, now, base, rows, nextId, sorted);
  }

  lemma RowOfListed(staged: Ruleset, now: nat, base: RowId, rows: map<RowId, Row>, nextId: RowId, sorted: seq<Uuid>,
                    u: Uuid)
      returns (id: RowId)
    requires staged.Valid() && Rebuilt(staged, now, base, rows, nextId, sorted) && u in staged.rules
    ensures id in rows && rows[id].uuid == u
  {
    hide RebuiltRows, StableSort, KeysAscend;
    InsertionOrderIsSorted(staged, sorted);
    assert u in Elements(staged.order);
    var k :| 0 <= k < |sorted| && sorted[k] == u;
    id := base + k;
    RebuiltAt(Columns(staged.rules), now, base, sorted, k);
  }

  lemma RebuiltAt(columns: map<Uuid, Fields>, now: nat, base: RowId, sorted: seq<Uuid>, k: nat)
    requires k < |sorted| && forall u :: u in sorted ==> u in columns
    ensures base + k in RebuiltRows(columns, now, base, sorted)
    ensures RebuiltRows(columns, now, base, sorted)[base + k].uuid == sorted[k]
  {
    RebuiltRowIsSynced(columns, now, base, sorted, base + k);
  }

  lemma RebuiltCount(staged: Ruleset, now: nat, base: RowId, rows: map<RowId, Row>, nextId: RowId, sorted: seq<Uuid>)
    requires staged.Valid() && Rebuilt(staged, now, base, rows, nextId, sorted)
    ensures |rows| == |staged.rules|
  {
    InsertionOrderIsSorted(staged, sorted);
    ConsecutiveElements(base, |sorted|, rows);
    assert Elements(sorted) == Elements(staged.order);
    DistinctSize(sorted);
    DistinctSize(Consecutive(base, |sorted|));
    assert |rows| == |rows.Keys| && |staged.rules| == |staged.rules.Keys|;
  }

  lemma SortableMeans(rules: map<Uuid, RuleDict>)
    ensures Sortable(rules) <==> forall u :: u in rules ==> ParseSequence(rules[u].sequence, 0).Some?
  {
    assert forall u :: u in SortKeys(rules) <==> u in rules && ParseSequence(rules[u].sequence, 0).Some?;
    assert Sortable(rules) ==> forall u :: u in rules ==> u in SortKeys(rules).Keys;
  }

  /** One listed rule with a sequence that `int` rejects is enough: the table of any tenant is
      empty afterwards, pending edits included. */
  method UnparsableSequenceEmptiesTable(db: RuleTable, fw: Firewall, u: Uuid, now: nat)
    requires fw.Valid() && u in fw.staged.rules && fw.staged.rules[u].sequence == Text("first")
    modifies db
    ensures db.rows == map[]
  {
    assert ParseSequence(fw.staged.rules[u].sequence, 0).None? by {
      assert StripLeft("first") == "first" && StripRight("first") == "first";
    }
    var result := ReconcileFirewallRules(db, fw, false, now);
  }
}
