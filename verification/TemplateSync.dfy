/** Keeping the image table in step with the templates Proxmox lists. */
module TemplateSync {
  import opened Text

  type Vmid = nat
  type Time = int

  /** One template as Proxmox lists it; a key may be missing. */
  datatype Listed = Listed(vmid: Vmid, name: string, os: Option<string>, cores: Option<nat>, memory: Option<nat>,
                           disk: Option<nat>)

  datatype Template = Template(name: string, os: Option<string>, cpu: Option<nat>, ram: Option<nat>, disk: Option<nat>,
                               active: bool, syncedAt: Option<Time>)

  type Table = map<Vmid, Template>

  function Default<T>(o: Option<T>, d: T): T {
    if o.Some? then o.value else d
  }

  function NewRow(l: Listed): Template {
    Template(l.name, Some(Default(l.os, "Linux")), Some(Default(l.cores, 1)), Some(Default(l.memory, 1024)),
             Some(Default(l.disk, 10)), true, None)
  }

  /** A row whose template is listed: stamped, and brought back when it was soft-deleted. */
  function Seen(row: Template, l: Listed, now: Time): Template {
    if row.active then row.(syncedAt := Some(now))
    else Template(l.name, Some(Default(l.os, OrElse(row.os, "Linux"))), if l.cores.Some? then l.cores else row.cpu,
                  if l.memory.Some? then l.memory else row.ram, if l.disk.Some? then l.disk else row.disk,
                  true, Some(now))
  }

  function Vmids(listing: seq<Listed>): set<Vmid> {
    set l | l in listing :: l.vmid
  }

  /** The first entry for a vmid. */
  function FirstOf(listing: seq<Listed>, v: Vmid): (l: Listed)
    requires v in Vmids(listing)
    ensures l in listing && l.vmid == v
  {
    if listing[0].vmid == v then listing[0]
    else
      assert v in Vmids(listing[1..]) by {
        var l :| l in listing && l.vmid == v;
        assert l in listing[1..];
      }
      FirstOf(listing[1..], v)
  }

  lemma {:induction false} FirstOfPrefix(listing: seq<Listed>, i: nat, v: Vmid)
    requires i <= |listing| && v in Vmids(listing[..i])
    ensures v in Vmids(listing) && FirstOf(listing, v) == FirstOf(listing[..i], v)
  {
    var l :| l in listing[..i] && l.vmid == v;
    assert l in listing;
    if listing[0].vmid != v {
      assert listing[..i][1..] == listing[1..][..i - 1];
      assert listing[..i][0] == listing[0];
      assert l in listing[1..][..i - 1];
      FirstOfPrefix(listing[1..], i - 1, v);
    }
  }

  lemma FirstOfPush(listing: seq<Listed>, l: Listed)
    ensures Vmids(listing + [l]) == Vmids(listing) + {l.vmid}
    ensures forall v :: v in Vmids(listing + [l]) ==>
              FirstOf(listing + [l], v) == if v in Vmids(listing) then FirstOf(listing, v) else l
  {
    var all := listing + [l];
    assert all[..|listing|] == listing;
    forall v | v in Vmids(all)
      ensures FirstOf(all, v) == if v in Vmids(listing) then FirstOf(listing, v) else l
    {
      if v in Vmids(listing) {
        FirstOfPrefix(all, |listing|, v);
      } else {
        assert FirstOf(all, v) in all;
        assert FirstOf(all, v) !in listing;
      }
    }
    forall v
      ensures v in Vmids(all) <==> v in Vmids(listing) + {l.vmid}
    {
      if v in Vmids(listing) {
        var k :| k in listing && k.vmid == v;
        assert k in all;
      }
      assert l in all;
    }
  }

  // ---------------------------------------------------------------- the table after a sync

  /** Entries without a row, in listing order. */
  function Unknown(listing: seq<Listed>, rows: Table): seq<Listed> {
    if listing == [] then []
    else
      var front, last := listing[..|listing| - 1], listing[|listing| - 1];
      if last.vmid in rows then Unknown(front, rows) else Unknown(front, rows) + [last]
  }

  function Updated(rows: Table, listing: seq<Listed>, now: Time): Table {
    map v | v in rows ::
      if v in Vmids(listing) then Seen(rows[v], FirstOf(listing, v), now)
      else if listing != [] && rows[v].active then rows[v].(active := false, syncedAt := Some(now))
      else rows[v]
  }

  /** The rows after the pass over the listing, before the soft deletions. */
  function Stamped(rows: Table, listing: seq<Listed>, now: Time): Table {
    map v | v in rows :: if v in Vmids(listing) then Seen(rows[v], FirstOf(listing, v), now) else rows[v]
  }

  /** A later entry for a vmid finds its row active and stamps it again. */
  lemma StampStep(rows: Table, listing: seq<Listed>, l: Listed, now: Time)
    ensures var before, after := Stamped(rows, listing, now), Stamped(rows, listing + [l], now);
            after == if l.vmid in rows then before[l.vmid := Seen(before[l.vmid], l, now)] else before
  {
    FirstOfPush(listing, l);
  }

  lemma NothingStamped(rows: Table, now: Time)
    ensures Stamped(rows, [], now) == rows
  {
  }

  /** What `Deactivate` makes of the stamped rows. */
  lemma DeactivatedIsUpdated(rows: Table, listing: seq<Listed>, now: Time)
    ensures Updated(rows, listing, now) == if listing == [] then Stamped(rows, listing, now)
                  else Deactivated(Stamped(rows, listing, now), Vmids(listing), now)
  {
  }

  /** The soft deletion of the active rows that are not listed. */
  function Deactivated(rows: Table, listed: set<Vmid>, now: Time): Table {
    map v | v in rows ::
      if v !in listed && rows[v].active then rows[v].(active := false, syncedAt := Some(now)) else rows[v]
  }

  function Inserted(entries: seq<Listed>): Table {
    map v | v in Vmids(entries) :: NewRow(FirstOf(entries, v))
  }

  function After(rows: Table, listing: seq<Listed>, now: Time): Table {
    Updated(rows, listing, now) + Inserted(Unknown(listing, rows))
  }

  predicate VmidsDiffer(entries: seq<Listed>) {
    forall i, j :: 0 <= i < j < |entries| ==> entries[i].vmid != entries[j].vmid
  }

  /** Image names are unique over all providers. */
  predicate NamesDiffer(rows: Table, others: set<string>) {
    && (forall u, v :: u in rows && v in rows && u != v ==> rows[u].name != rows[v].name)
    && forall v :: v in rows ==> rows[v].name !in others
  }

  // ---------------------------------------------------------------- the flush

  /** `order` holds the vmids of the rows by primary key. */
  predicate Ordered(order: seq<Vmid>, rows: Table) {
    && (forall i, j :: 0 <= i < j < |order| ==> order[i] != order[j])
    && rows.Keys == set v | v in order
  }

  /** The unique index lets row `v` have the name. */
  predicate NameFits(rows: Table, others: set<string>, v: Vmid, name: string) {
    name !in others && forall w :: w in rows && w != v ==> rows[w].name != name
  }

  /** The rows when the flush has written those in `done`. */
  function Flushed(rows: Table, target: Table, done: seq<Vmid>): Table
    requires rows.Keys <= target.Keys
  {
    map v | v in rows :: if v in done then target[v] else rows[v]
  }

  /** The changed rows are written one by one, by primary key, and the index is checked at each. */
  predicate UpdatesPass(rows: Table, order: seq<Vmid>, target: Table, others: set<string>)
    requires Ordered(order, rows) && rows.Keys <= target.Keys
  {
    forall i :: 0 <= i < |order| ==>
      NameFits(Flushed(rows, target, order[..i]), others, order[i], target[order[i]].name)
  }

  /** The new rows are inserted one by one after that. */
  predicate InsertsPass(rows: Table, added: seq<Listed>, others: set<string>) {
    forall i :: 0 <= i < |added| ==>
      && added[i].vmid !in rows && added[i].vmid !in Vmids(added[..i])
      && NameFits(rows + Inserted(added[..i]), others, added[i].vmid, added[i].name)
  }

  /** The flush meets no constraint of the table. */
  predicate Admissible(rows: Table, order: seq<Vmid>, listing: seq<Listed>, now: Time, others: set<string>)
    requires Ordered(order, rows)
  {
    && UpdatesPass(rows, order, Updated(rows, listing, now), others)
    && InsertsPass(Updated(rows, listing, now), Unknown(listing, rows), others)
  }

  function Active(rows: Table): set<Vmid> {
    set v | v in rows && rows[v].active
  }

  lemma {:induction false} UnknownVmids(listing: seq<Listed>, rows: Table)
    ensures Vmids(Unknown(listing, rows)) == Vmids(listing) - rows.Keys
  {
    if listing != [] {
      var front, last := listing[..|listing| - 1], listing[|listing| - 1];
      UnknownVmids(front, rows);
      assert listing == front + [last];
      assert Vmids(listing) == Vmids(front) + {last.vmid};
      assert Vmids(Unknown(front, rows) + [last]) == Vmids(Unknown(front, rows)) + {last.vmid};
    }
  }

  /** After a sync with a non-empty listing the active rows are exactly the listed vmids; no row
      is ever deleted. With an empty listing nothing changes. */
  lemma ActiveIsListed(rows: Table, listing: seq<Listed>, now: Time)
    ensures var after := After(rows, listing, now);
            && (listing != [] ==> Active(after) == Vmids(listing))
            && (listing == [] ==> after == rows)
            && after.Keys == rows.Keys + Vmids(listing)
  {
    UnknownVmids(listing, rows);
  }

  /** The listed value, or else the given one. */
  ghost predicate Takes<T(!new)>(column: Option<T>, listed: Option<T>, otherwise: Option<T>) {
    (listed.Some? ==> column == listed) && (listed.None? ==> column == otherwise)
  }

  lemma RevivedRow(was: Template, l: Listed, now: Time)
    requires !was.active
    ensures var row := Seen(was, l, now);
            && row.active && row.name == l.name && row.syncedAt == Some(now)
            && Takes(row.os, l.os, if was.os in {None, Some("")} then Some("Linux") else was.os)
            && Takes(row.cpu, l.cores, was.cpu) && Takes(row.ram, l.memory, was.ram)
            && Takes(row.disk, l.disk, was.disk)
  {
  }

  /** A row after a sync, column by column: new, active, revived, soft-deleted or left alone. */
  lemma RowAfterSync(rows: Table, listing: seq<Listed>, now: Time, v: Vmid)
    requires v in rows || v in Vmids(listing)
    ensures v in After(rows, listing, now)
    ensures v in Vmids(listing) && v !in rows ==>
              var l, row := FirstOf(listing, v), After(rows, listing, now)[v];
              && row.active && row.name == l.name && row.syncedAt == None
              && Takes(row.os, l.os, Some("Linux")) && Takes(row.cpu, l.cores, Some(1))
              && Takes(row.ram, l.memory, Some(1024)) && Takes(row.disk, l.disk, Some(10))
    ensures v in Vmids(listing) && v in rows && !rows[v].active ==>
              var l, was, row := FirstOf(listing, v), rows[v], After(rows, listing, now)[v];
              && row.active && row.name == l.name && row.syncedAt == Some(now)
              && Takes(row.os, l.os, if was.os in {None, Some("")} then Some("Linux") else was.os)
              && Takes(row.cpu, l.cores, was.cpu) && Takes(row.ram, l.memory, was.ram)
              && Takes(row.disk, l.disk, was.disk)
    ensures v in Vmids(listing) && v in rows && rows[v].active ==>
              After(rows, listing, now)[v] == rows[v].(syncedAt := Some(now))
    ensures v !in Vmids(listing) ==>
              After(rows, listing, now)[v] == if listing == [] || !rows[v].active then rows[v]
                                              else rows[v].(active := false, syncedAt := Some(now))
  {
    UnknownVmids(listing, rows);
    if v in Vmids(listing) {
      if v !in rows {
        UnknownFirst(listing, rows, v);
      } else if !rows[v].active {
        RevivedRow(rows[v], FirstOf(listing, v), now);
        hide Seen, Takes;
      }
    }
  }

  lemma NoVmids(listing: seq<Listed>)
    ensures listing == [] <==> Vmids(listing) == {}
  {
    if listing != [] {
      assert listing[0].vmid in Vmids(listing);
    }
  }

  /** A second sync with the same listing adds nothing and changes nothing but the stamps of
      listed rows. */
  lemma RepeatAddsNothing(rows: Table, listing: seq<Listed>, now: Time, later: Time)
    ensures var once := After(rows, listing, now);
            var twice := After(once, listing, later);
            && Unknown(listing, once) == []
            && twice.Keys == once.Keys
            && forall v :: v in once ==>
                 twice[v] == if v in Vmids(listing) then once[v].(syncedAt := Some(later)) else once[v]
  {
    var once := After(rows, listing, now);
    ActiveIsListed(rows, listing, now);
    UnknownVmids(listing, once);
    NoVmids(Unknown(listing, once));
    forall v | v in once && v in Vmids(listing)
      ensures once[v].active
    {
      assert v in Active(once);
    }
    forall v | v in once && v !in Vmids(listing) && listing != []
      ensures !once[v].active
    {
      assert v !in Active(once);
    }
  }

  // ---------------------------------------------------------------- when a sync is admissible

  /** No vmid without a row is listed twice. */
  predicate NewOnce(listing: seq<Listed>, rows: Table) {
    forall i, j :: 0 <= i < j < |listing| && listing[i].vmid == listing[j].vmid ==> listing[i].vmid in rows
  }

  /** The vmids whose row gets its name from the listing: new ones and revived ones. */
  function Written(rows: Table, listing: seq<Listed>): set<Vmid> {
    set v | v in Vmids(listing) && (v !in rows || !rows[v].active)
  }

  /** The names written are new to the table: they differ pairwise, no other provider has one of
      them, and no row has one that keeps its name, whether it is active or soft-deleted. */
  predicate FreshNames(rows: Table, listing: seq<Listed>, others: set<string>) {
    && (forall u, v :: u in Written(rows, listing) && v in Written(rows, listing) && u != v ==>
          FirstOf(listing, u).name != FirstOf(listing, v).name)
    && (forall v :: v in Written(rows, listing) ==> FirstOf(listing, v).name !in others)
    && (forall v, w :: v in Written(rows, listing) && w in rows && w !in Written(rows, listing) ==>
          FirstOf(listing, v).name != rows[w].name)
  }

  /** No revived row takes the name that a revived row behind it still has. */
  predicate RevivalsInOrder(rows: Table, order: seq<Vmid>, listing: seq<Listed>)
    requires Ordered(order, rows)
  {
    forall i, j :: 0 <= i < j < |order| && order[i] in Written(rows, listing) && order[j] in Written(rows, listing) ==>
      FirstOf(listing, order[i]).name != rows[order[j]].name
  }

  lemma {:induction false} UnknownFirst(listing: seq<Listed>, rows: Table, v: Vmid)
    requires v in Vmids(listing) && v !in rows
    ensures v in Vmids(Unknown(listing, rows)) && FirstOf(Unknown(listing, rows), v) == FirstOf(listing, v)
  {
    var front, last := listing[..|listing| - 1], listing[|listing| - 1];
    assert listing == front + [last];
    UnknownVmids(listing, rows);
    UnknownVmids(front, rows);
    FirstOfPush(front, last);
    FirstOfPush(Unknown(front, rows), last);
    if v in Vmids(front) {
      UnknownFirst(front, rows, v);
    }
  }

  lemma {:induction false} UnknownOnce(listing: seq<Listed>, rows: Table)
    ensures VmidsDiffer(Unknown(listing, rows)) <==> NewOnce(listing, rows)
  {
    if listing != [] {
      var front, last := listing[..|listing| - 1], listing[|listing| - 1];
      assert listing == front + [last];
      UnknownOnce(front, rows);
      NewOncePush(front, last, rows);
      if last.vmid !in rows {
        UnknownVmids(front, rows);
        VmidsDifferPush(Unknown(front, rows), last);
      }
    }
  }

  lemma NewOncePush(front: seq<Listed>, last: Listed, rows: Table)
    ensures NewOnce(front + [last], rows) <==> NewOnce(front, rows) && (last.vmid in rows || last.vmid !in Vmids(front))
  {
    var all := front + [last];
    assert all[|front|] == last && forall i :: 0 <= i < |front| ==> all[i] == front[i];
    if last.vmid in Vmids(front) {
      var l :| l in front && l.vmid == last.vmid;
      var i :| 0 <= i < |front| && front[i] == l;
      assert all[i].vmid == all[|front|].vmid;
    } else {
      assert forall i :: 0 <= i < |front| ==> front[i].vmid in Vmids(front);
    }
    if NewOnce(all, rows) {
      forall i, j | 0 <= i < j < |front| && front[i].vmid == front[j].vmid
        ensures front[i].vmid in rows
      {
        assert all[i].vmid == all[j].vmid;
      }
    }
  }

  lemma VmidsDifferPush(front: seq<Listed>, last: Listed)
    ensures VmidsDiffer(front + [last]) <==> VmidsDiffer(front) && last.vmid !in Vmids(front)
  {
    var all := front + [last];
    assert all[|front|] == last && forall i :: 0 <= i < |front| ==> all[i] == front[i];
    if last.vmid in Vmids(front) {
      var l :| l in front && l.vmid == last.vmid;
      var i :| 0 <= i < |front| && front[i] == l;
      assert all[i].vmid == all[|front|].vmid;
    } else {
      assert forall i :: 0 <= i < |front| ==> front[i].vmid in Vmids(front);
    }
  }

  lemma NameAfter(rows: Table, listing: seq<Listed>, now: Time, v: Vmid)
    requires v in After(rows, listing, now)
    ensures v in Written(rows, listing) || v in rows
    ensures After(rows, listing, now)[v].name == if v in Written(rows, listing) then FirstOf(listing, v).name
                  else rows[v].name
  {
    UnknownVmids(listing, rows);
    if v !in rows {
      UnknownFirst(listing, rows, v);
    }
  }

  /** The constraints accept a sync if and only if new vmids are listed once, the names it
      writes are fresh, and no revived row takes a name before its holder has given it up:
      conditions on the table and the listing before the call. */
  lemma WhenAdmissible(rows: Table, order: seq<Vmid>, listing: seq<Listed>, now: Time, others: set<string>)
    requires NamesDiffer(rows, others) && Ordered(order, rows)
    ensures Admissible(rows, order, listing, now, others) <==>
              && NewOnce(listing, rows) && FreshNames(rows, listing, others)
              && RevivalsInOrder(rows, order, listing)
  {
    var target, added := Updated(rows, listing, now), Unknown(listing, rows);
    UnknownOnce(listing, rows);
    UnknownVmids(listing, rows);
    ActiveIsListed(rows, listing, now);
    NamesAfter(rows, listing, now, others);
    UpdatedNames(rows, listing, now);
    if UpdatesPass(rows, order, target, others) {
      UpdatesKeepNamesApart(rows, order, target, others);
      InsertsPassTogether(target, added, others);
      PassedInOrder(rows, order, listing, target, others);
    }
    if NewOnce(listing, rows) && FreshNames(rows, listing, others) && RevivalsInOrder(rows, order, listing) {
      InOrderPasses(rows, order, listing, target, others);
    }
  }

  /** The names the updates aim at. */
  ghost predicate AimsAt(rows: Table, listing: seq<Listed>, target: Table) {
    && target.Keys == rows.Keys
    && forall v :: v in rows ==>
         target[v].name == if v in Written(rows, listing) then FirstOf(listing, v).name else rows[v].name
  }

  lemma UpdatedNames(rows: Table, listing: seq<Listed>, now: Time)
    ensures AimsAt(rows, listing, Updated(rows, listing, now))
  {
  }

  /** A row written with a name that fits leaves all names different. */
  lemma FitKeepsNamesApart(rows: Table, others: set<string>, v: Vmid, row: Template)
    requires NamesDiffer(rows, others) && NameFits(rows, others, v, row.name)
    ensures NamesDiffer(rows[v := row], others)
  {
  }

  lemma FlushEnds(rows: Table, order: seq<Vmid>, target: Table)
    requires Ordered(order, rows) && rows.Keys == target.Keys
    ensures Flushed(rows, target, order[..0]) == rows && Flushed(rows, target, order[..|order|]) == target
  {
    assert order[..|order|] == order;
  }

  lemma FlushStep(rows: Table, order: seq<Vmid>, target: Table, i: nat)
    requires Ordered(order, rows) && rows.Keys == target.Keys && i < |order|
    ensures order[i] in target
    ensures Flushed(rows, target, order[..i + 1]) ==
            Flushed(rows, target, order[..i])[order[i] := target[order[i]]]
  {
    assert order[..i + 1] == order[..i] + [order[i]];
    assert order[i] in order;
  }

  lemma {:induction false} UpdatesKeepNamesApart(rows: Table, order: seq<Vmid>, target: Table, others: set<string>)
    requires NamesDiffer(rows, others) && Ordered(order, rows) && rows.Keys == target.Keys
    requires UpdatesPass(rows, order, target, others)
    ensures NamesDiffer(target, others)
  {
    hide Flushed, NamesDiffer, NameFits, Ordered;
    FlushEnds(rows, order, target);
    for i := 0 to |order|
      invariant NamesDiffer(Flushed(rows, target, order[..i]), others)
    {
      FlushStep(rows, order, target, i);
      FitKeepsNamesApart(Flushed(rows, target, order[..i]), others, order[i], target[order[i]]);
    }
  }

  lemma InsertStep(rows: Table, added: seq<Listed>, i: nat)
    requires i < |added| && added[i].vmid !in rows && added[i].vmid !in Vmids(added[..i])
    ensures rows + Inserted(added[..i + 1]) == (rows + Inserted(added[..i]))[added[i].vmid := NewRow(added[i])]
    ensures Vmids(added[..i + 1]) == Vmids(added[..i]) + {added[i].vmid}
  {
    assert added[..i + 1] == added[..i] + [added[i]];
    FirstOfPush(added[..i], added[i]);
  }

  /** When names differ before the inserts, these pass one by one if and only if the vmids and
      the names differ after all of them. */
  lemma InsertsPassTogether(rows: Table, added: seq<Listed>, others: set<string>)
    requires NamesDiffer(rows, others) && rows.Keys !! Vmids(added)
    ensures InsertsPass(rows, added, others) <==> VmidsDiffer(added) && NamesDiffer(rows + Inserted(added), others)
  {
    hide NamesDiffer, NameFits, VmidsDiffer, Vmids, Inserted;
    if InsertsPass(rows, added, others) {
      PassedInsertsDiffer(rows, added, others);
    }
    if VmidsDiffer(added) && NamesDiffer(rows + Inserted(added), others) {
      forall i | 0 <= i < |added|
        ensures added[i].vmid !in rows && added[i].vmid !in Vmids(added[..i])
        ensures NameFits(rows + Inserted(added[..i]), others, added[i].vmid, added[i].name)
      {
        InsertFits(rows, added, others, i);
      }
    }
  }

  lemma {:induction false} PassedInsertsDiffer(rows: Table, added: seq<Listed>, others: set<string>)
    requires NamesDiffer(rows, others) && InsertsPass(rows, added, others)
    ensures VmidsDiffer(added) && NamesDiffer(rows + Inserted(added), others)
  {
    hide NamesDiffer, NameFits, VmidsDiffer, Vmids, Inserted;
    NoInserts(rows);
    for i := 0 to |added|
      invariant VmidsDiffer(added[..i]) && NamesDiffer(rows + Inserted(added[..i]), others)
    {
      InsertStep(rows, added, i);
      assert added[..i + 1] == added[..i] + [added[i]];
      VmidsDifferPush(added[..i], added[i]);
      FitKeepsNamesApart(rows + Inserted(added[..i]), others, added[i].vmid, NewRow(added[i]));
    }
    assert added[..|added|] == added;
  }

  lemma NoInserts(rows: Table)
    ensures VmidsDiffer([]) && rows + Inserted([]) == rows
  {
  }

  lemma InsertFits(rows: Table, added: seq<Listed>, others: set<string>, i: nat)
    requires rows.Keys !! Vmids(added) && VmidsDiffer(added) && i < |added|
    requires NamesDiffer(rows + Inserted(added), others)
    ensures added[i].vmid !in rows && added[i].vmid !in Vmids(added[..i])
    ensures NameFits(rows + Inserted(added[..i]), others, added[i].vmid, added[i].name)
  {
    var front, all := added[..i], rows + Inserted(added);
    assert added[i].vmid in Vmids(added);
    VmidsOfPrefix(added, i);
    FirstIsOnly(added, i);
    forall v | v in Vmids(front)
      ensures v in Vmids(added) && FirstOf(front, v) == FirstOf(added, v) && v != added[i].vmid
    {
      FirstOfPrefix(added, i, v);
    }
    forall w | w in rows + Inserted(front)
      ensures w in all && all[w] == (rows + Inserted(front))[w] && w != added[i].vmid
    {
    }
    assert all[added[i].vmid] == NewRow(added[i]);
  }

  lemma VmidsOfPrefix(added: seq<Listed>, i: nat)
    requires VmidsDiffer(added) && i < |added|
    ensures added[i].vmid !in Vmids(added[..i])
  {
  }

  lemma FirstIsOnly(added: seq<Listed>, i: nat)
    requires VmidsDiffer(added) && i < |added| && added[i].vmid in Vmids(added)
    ensures FirstOf(added, added[i].vmid) == added[i]
  {
    var k :| 0 <= k < |added| && added[k] == FirstOf(added, added[i].vmid);
    assert k < i ==> added[k].vmid != added[i].vmid;
    assert i < k ==> added[i].vmid != added[k].vmid;
  }

  lemma StillThere(rows: Table, order: seq<Vmid>, target: Table, i: nat, j: nat)
    requires Ordered(order, rows) && rows.Keys == target.Keys && i < j < |order|
    ensures order[i] != order[j] && order[j] in rows && Flushed(rows, target, order[..i])[order[j]] == rows[order[j]]
  {
  }

  lemma PassedInOrder(rows: Table, order: seq<Vmid>, listing: seq<Listed>, target: Table, others: set<string>)
    requires Ordered(order, rows) && AimsAt(rows, listing, target) && UpdatesPass(rows, order, target, others)
    ensures RevivalsInOrder(rows, order, listing)
  {
    var written := Written(rows, listing);
    hide Written, FirstOf, Vmids;
    forall i, j | 0 <= i < j < |order| && order[i] in written && order[j] in written
      ensures target[order[i]].name != rows[order[j]].name
    {
      StillThere(rows, order, target, i, j);
      assert NameFits(Flushed(rows, target, order[..i]), others, order[i], target[order[i]].name);
    }
  }

  lemma InOrderPasses(rows: Table, order: seq<Vmid>, listing: seq<Listed>, target: Table, others: set<string>)
    requires Ordered(order, rows) && NamesDiffer(rows, others) && AimsAt(rows, listing, target)
    requires FreshNames(rows, listing, others) && RevivalsInOrder(rows, order, listing)
    ensures UpdatesPass(rows, order, target, others)
  {
    var written := Written(rows, listing);
    forall i | 0 <= i < |order|
      ensures NameFits(Flushed(rows, target, order[..i]), others, order[i], target[order[i]].name)
    {
      var before := Flushed(rows, target, order[..i]);
      forall w | w in before && w != order[i]
        ensures before[w].name != target[order[i]].name
      {
        if w !in order[..i] {
          var j :| 0 <= j < |order| && order[j] == w;
          assert i < j;
        }
      }
    }
  }

  lemma NamesAfter(rows: Table, listing: seq<Listed>, now: Time, others: set<string>)
    requires NamesDiffer(rows, others) && After(rows, listing, now).Keys == rows.Keys + Vmids(listing)
    ensures NamesDiffer(After(rows, listing, now), others) <==> FreshNames(rows, listing, others)
  {
    var after, written := After(rows, listing, now), Written(rows, listing);
    forall v | v in after
      ensures v in written || v in rows
      ensures after[v].name == if v in written then FirstOf(listing, v).name else rows[v].name
    {
      NameAfter(rows, listing, now, v);
    }
    NamesCarryOver(rows, listing, after, others);
  }

  lemma NamesCarryOver(rows: Table, listing: seq<Listed>, after: Table, others: set<string>)
    requires NamesDiffer(rows, others) && after.Keys == rows.Keys + Vmids(listing)
    requires forall v :: v in after ==> v in Written(rows, listing) || v in rows
    requires forall v :: v in after ==>
      after[v].name == if v in Written(rows, listing) then FirstOf(listing, v).name else rows[v].name
    ensures NamesDiffer(after, others) <==> FreshNames(rows, listing, others)
  {
    hide Vmids, FirstOf, Written;
    var written := Written(rows, listing);
    WrittenIsListed(rows, listing);
    if FreshNames(rows, listing, others) {
      forall u, v | u in after && v in after && u != v
        ensures after[u].name != after[v].name
      {
      }
    }
  }

  lemma WrittenIsListed(rows: Table, listing: seq<Listed>)
    ensures Written(rows, listing) <= Vmids(listing)
  {
  }

  /** A row that is not listed keeps its name, soft-deleted or not: template 100 gone and its
      name listed under 101 is refused, and so the whole sync fails however often it is
      repeated. */
  lemma KeptNameBlocksSync(row: Template, l: Listed, now: Time)
    requires row.name == "ubuntu" && l.name == "ubuntu" && l.vmid == 101
    ensures !Admissible(map[100 := row], [100], [l], now, {})
  {
    var rows := map[100 := row];
    assert l in [l] && Vmids([l]) == {101};
    assert FirstOf([l], 101) == l;
    assert 101 in Written(rows, [l]) && 100 in rows && 100 !in Written(rows, [l]);
    WhenAdmissible(rows, [100], [l], now, {});
  }

  /** Two revived rows that exchange their names are refused in either order: the first of the
      two updates meets the name the other row still has. */
  lemma ExchangeIsRefused(rows: Table, order: seq<Vmid>, listing: seq<Listed>, now: Time, others: set<string>,
                          u: Vmid, w: Vmid)
    requires NamesDiffer(rows, others) && Ordered(order, rows)
    requires u in rows && w in rows && u != w && u in Written(rows, listing) && w in Written(rows, listing)
    requires FirstOf(listing, u).name == rows[w].name && FirstOf(listing, w).name == rows[u].name
    ensures !Admissible(rows, order, listing, now, others)
  {
    var i :| 0 <= i < |order| && order[i] == u;
    var j :| 0 <= j < |order| && order[j] == w;
    WhenAdmissible(rows, order, listing, now, others);
  }

  /** Rows 100 "a" and 101 "b", both soft-deleted, are listed as 100 "b" and 101 "a": the
      conditions on the final names are met, and the sync is refused. */
  lemma FreshNamesAreNotEnough(rows: Table, listing: seq<Listed>, la: Listed, lb: Listed, now: Time)
    requires rows.Keys == {100, 101} && !rows[100].active && !rows[101].active
    requires rows[100].name == "a" && rows[101].name == "b" && listing == [la, lb]
    requires la.vmid == 100 && la.name == "b" && lb.vmid == 101 && lb.name == "a"
    ensures NewOnce(listing, rows) && FreshNames(rows, listing, {}) && NamesDiffer(After(rows, listing, now), {})
    ensures !Admissible(rows, [100, 101], listing, now, {})
  {
    TwoListed(la, lb);
    assert Written(rows, listing) == {100, 101};
    assert FreshNames(rows, listing, {}) && NamesDiffer(rows, {}) by {
      hide Vmids, FirstOf, Written;
    }
    assert NamesDiffer(After(rows, listing, now), {}) by {
      hide *;
      AfterKeys(rows, listing, now);
      NamesAfter(rows, listing, now, {});
    }
    assert !Admissible(rows, [100, 101], listing, now, {}) by {
      hide Admissible, After, Written;
      ExchangeIsRefused(rows, [100, 101], listing, now, {}, 100, 101);
    }
  }

  lemma AfterKeys(rows: Table, listing: seq<Listed>, now: Time)
    ensures After(rows, listing, now).Keys == rows.Keys + Vmids(listing)
  {
    ActiveIsListed(rows, listing, now);
  }

  lemma TwoListed(k: Listed, l: Listed)
    requires k.vmid != l.vmid
    ensures Vmids([k, l]) == {k.vmid, l.vmid} && FirstOf([k, l], k.vmid) == k && FirstOf([k, l], l.vmid) == l
  {
    assert [k, l][1..] == [l] && k in [k, l] && l in [k, l];
    assert l in [l] && l.vmid in Vmids([l]);
  }

  function VmidList(entries: seq<Listed>): (vmids: seq<Vmid>)
    ensures |vmids| == |entries| && forall i :: 0 <= i < |entries| ==> vmids[i] == entries[i].vmid
  {
    seq(|entries|, i requires 0 <= i < |entries| => entries[i].vmid)
  }

  /** New rows get the next primary keys in listing order. */
  lemma OrderGrows(rows: Table, order: seq<Vmid>, pending: Table, added: seq<Listed>)
    requires Ordered(order, rows) && pending.Keys == rows.Keys && rows.Keys !! Vmids(added) && VmidsDiffer(added)
    ensures Ordered(order + VmidList(added), pending + Inserted(added))
  {
    var order', rows', ids := order + VmidList(added), pending + Inserted(added), VmidList(added);
    forall v
      ensures v in Vmids(added) <==> v in ids
    {
      if v in Vmids(added) {
        var l :| l in added && l.vmid == v;
        var i :| 0 <= i < |added| && added[i] == l;
        assert ids[i] == v;
      }
      if v in ids {
        var i :| 0 <= i < |ids| && ids[i] == v;
        assert added[i] in added && added[i].vmid == v;
      }
    }
    forall i, j | 0 <= i < j < |order'|
      ensures order'[i] != order'[j]
    {
      if |order| <= i {
        assert added[i - |order|].vmid != added[j - |order|].vmid;
      } else if |order| <= j {
        assert order[i] in rows && ids[j - |order|] in ids;
      }
    }
  }

  // ---------------------------------------------------------------- the call

  /** The loop over the listing: rows found are stamped, the others become new rows. */
  method PassOver(rows: Table, entries: seq<Listed>, now: Time) returns (pending: Table, added: seq<Listed>)
    ensures pending == Stamped(rows, entries, now) && added == Unknown(entries, rows)
  {
    hide Vmids;
    pending, added := rows, [];
    NothingStamped(rows, now);
    for i := 0 to |entries|
      invariant pending == Stamped(rows, entries[..i], now) && pending.Keys == rows.Keys
      invariant added == Unknown(entries[..i], rows)
    {
      var l := entries[i];
      assert entries[..i + 1][..i] == entries[..i] && entries[..i + 1] == entries[..i] + [l];
      StampStep(rows, entries[..i], l, now);
      if l.vmid in pending {
        pending := pending[l.vmid := Seen(pending[l.vmid], l, now)];
      } else {
        added := added + [l];
      }
    }
    assert entries[..|entries|] == entries;
  }

  /** The UPDATE statements, up to the first that meets the unique index. */
  method FlushUpdates(rows: Table, order: seq<Vmid>, pending: Table, others: set<string>) returns (passed: bool)
    requires Ordered(order, rows) && pending.Keys == rows.Keys
    ensures passed <==> UpdatesPass(rows, order, pending, others)
  {
    hide Flushed, NameFits;
    FlushEnds(rows, order, pending);
    var table := rows;
    for i := 0 to |order|
      invariant table == Flushed(rows, pending, order[..i])
      invariant forall k :: 0 <= k < i ==>
                  NameFits(Flushed(rows, pending, order[..k]), others, order[k], pending[order[k]].name)
    {
      FlushStep(rows, order, pending, i);
      var v := order[i];
      if !NameFits(table, others, v, pending[v].name) {
        return false;
      }
      table := table[v := pending[v]];
    }
    passed := true;
  }

  /** The INSERT statements, up to the first that meets a constraint. */
  method FlushInserts(pending: Table, added: seq<Listed>, others: set<string>) returns (passed: bool)
    requires pending.Keys !! Vmids(added)
    ensures passed <==> InsertsPass(pending, added, others)
  {
    hide Vmids, NameFits, Inserted;
    NoInserts(pending);
    var table := pending;
    for i := 0 to |added|
      invariant table == pending + Inserted(added[..i])
      invariant forall k :: 0 <= k < i ==>
                  && added[k].vmid !in pending && added[k].vmid !in Vmids(added[..k])
                  && NameFits(pending + Inserted(added[..k]), others, added[k].vmid, added[k].name)
    {
      var l := added[i];
      assert l.vmid in table <==> l.vmid in pending || l.vmid in Vmids(added[..i]) by {
        InsertedKeys(added[..i]);
      }
      if l.vmid in table || !NameFits(table, others, l.vmid, l.name) {
        return false;
      }
      InsertStep(pending, added, i);
      table := table[l.vmid := NewRow(l)];
    }
    passed := true;
  }

  lemma InsertedKeys(entries: seq<Listed>)
    ensures Inserted(entries).Keys == Vmids(entries)
  {
  }

  class ImageTable {
    var rows: Table
    var order: seq<Vmid>
    var others: set<string>

    constructor (rows: Table, order: seq<Vmid>, others: set<string>)
      requires Ordered(order, rows) && NamesDiffer(rows, others)
      ensures Valid() && this.rows == rows && this.order == order && this.others == others
    {
      this.rows, this.order, this.others := rows, order, others;
    }

    /** The table keeps its constraints. */
    predicate Valid()
      reads this
    {
      Ordered(order, rows) && NamesDiffer(rows, others)
    }

    /** `sync_proxmox_templates`: `cached` is the Redis marker, `listing` is `None` when Proxmox
        cannot be asked, `commits` is whether the database takes an admissible commit. A commit
        that fails raises and leaves the table as it was. */
    method SyncProxmoxTemplates(cached: bool, listing: Option<seq<Listed>>, now: Time, commits: bool)
      returns (count: nat, raised: bool)
      requires Valid()
      modifies `rows, `order
      ensures Valid()
      ensures cached || listing.None? ==> count == 0 && !raised && rows == old(rows) && order == old(order)
      ensures !cached && listing.Some? ==>
                && count == |Unknown(listing.value, old(rows))|
                && (raised <==> !commits || !Admissible(old(rows), old(order), listing.value, now, others))
                && (raised <==>
                      !(commits && NewOnce(listing.value, old(rows)) && FreshNames(old(rows), listing.value, others)
                        && RevivalsInOrder(old(rows), old(order), listing.value)))
                && rows == (if raised then old(rows) else After(old(rows), listing.value, now))
                && order == old(order) + if raised then [] else VmidList(Unknown(listing.value, old(rows)))
    {
      if cached || listing.None? {
        return 0, false;
      }
      hide Ordered, NamesDiffer, UpdatesPass, InsertsPass, Unknown, Vmids, VmidList, NewOnce, FreshNames, Written;
      hide Stamped, RevivalsInOrder;
      var entries := listing.value;
      var pending, added := PassOver(rows, entries, now);
      DeactivatedIsUpdated(rows, entries, now);
      if entries != [] {
        pending := Deactivate(pending, Vmids(entries), now);
      }
      count := |added|;
      WhenAdmissible(rows, order, entries, now, others);
      UnknownVmids(entries, rows);
      raised := CommitSync(pending, added, commits);
    }

    /** The flush and the commit: updates by primary key, then inserts, and a rollback at the
        first conflict. */
    method CommitSync(pending: Table, added: seq<Listed>, commits: bool) returns (raised: bool)
      requires Valid() && pending.Keys == rows.Keys && rows.Keys !! Vmids(added)
      modifies `rows, `order
      ensures Valid()
      ensures raised <==>
              !(commits && UpdatesPass(old(rows), old(order), pending, others) && InsertsPass(pending, added, others))
      ensures rows == if raised then old(rows) else pending + Inserted(added)
      ensures order == old(order) + if raised then [] else VmidList(added)
    {
      hide Ordered, NamesDiffer, UpdatesPass, InsertsPass, Inserted, VmidsDiffer, Vmids, VmidList;
      var passed := FlushUpdates(rows, order, pending, others);
      if passed {
        UpdatesKeepNamesApart(rows, order, pending, others);
        passed := FlushInserts(pending, added, others);
      }
      raised := !passed || !commits;
      if !raised {
        InsertsPassTogether(pending, added, others);
        OrderGrows(rows, order, pending, added);
        rows, order := pending + Inserted(added), order + VmidList(added);
      }
    }

    /** The soft deletion of rows that are no longer listed. */
    method Deactivate(pending: Table, listed: set<Vmid>, now: Time) returns (after: Table)
      ensures after == Deactivated(pending, listed, now)
    {
      after := pending;
      var todo := pending.Keys;
      while todo != {}
        invariant todo <= pending.Keys && after.Keys == pending.Keys
        invariant forall v :: v in pending ==>
                    after[v] == if v !in todo && v !in listed && pending[v].active
                                then pending[v].(active := false, syncedAt := Some(now)) else pending[v]
        decreases |todo|
      {
        var v :| v in todo;
        todo := todo - {v};
        if after[v].active && v !in listed {
          after := after[v := after[v].(active := false, syncedAt := Some(now))];
        }
      }
    }
  }
}
