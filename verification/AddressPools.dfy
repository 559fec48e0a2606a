/** Row pools handed out with `SELECT ... FOR UPDATE SKIP LOCKED`: /24 subnets, per-pod VLAN
    ids and WireGuard /24s. A step is one statement of an open transaction. */
module AddressPools {
  import opened Text

  type TxId = nat
  type OwnerId = nat

  /** A pool row: its committed status, and the open transaction that has it locked. */
  datatype Row = Row(inUse: bool, lock: Option<TxId>)

  const FREE := Row(false, None)

  /** The rows, what each open transaction has taken, and what each committed owner uses. */
  datatype PoolState<K> = PoolState(rows: map<K, Row>, held: map<TxId, K>, used: map<OwnerId, K>)

  // ---------------------------------------------------------------- steps

  ghost predicate Takes<K>(p: PoolState<K>, t: TxId, k: K, p': PoolState<K>) {
    && t !in p.held && k in p.rows && p.rows[k] == FREE
    && p' == PoolState(p.rows[k := Row(false, Some(t))], p.held[t := k], p.used)
  }

  ghost predicate Commits<K>(p: PoolState<K>, t: TxId, o: OwnerId, p': PoolState<K>) {
    if t in p.held then
      && o !in p.used && p.held[t] in p.rows
      && p' == PoolState(p.rows[p.held[t] := Row(true, None)], p.held - {t}, p.used[o := p.held[t]])
    else p' == p
  }

  ghost predicate Aborts<K>(p: PoolState<K>, t: TxId, p': PoolState<K>) {
    if t in p.held then p.held[t] in p.rows && p' == PoolState(p.rows[p.held[t] := FREE], p.held - {t}, p.used)
    else p' == p
  }

  /** `release_*`: the row is written free, whoever it belongs to by then; a locked row makes
      the statement wait. */
  ghost predicate Releases<K>(p: PoolState<K>, o: OwnerId, k: K, p': PoolState<K>) {
    if k in p.rows then p.rows[k].lock.None? && p' == PoolState(p.rows[k := FREE], p.held, p.used - {o})
    else p' == PoolState(p.rows, p.held, p.used - {o})
  }

  // ---------------------------------------------------------------- the invariant

  ghost predicate HeldOk<K>(p: PoolState<K>) {
    forall t :: t in p.held ==> p.held[t] in p.rows && p.rows[p.held[t]] == Row(false, Some(t))
  }

  ghost predicate LocksOk<K(!new)>(p: PoolState<K>) {
    forall k :: k in p.rows && p.rows[k].lock.Some? ==>
        p.rows[k].lock.value in p.held && p.held[p.rows[k].lock.value] == k
  }

  ghost predicate UsedOk<K>(p: PoolState<K>) {
    forall o :: o in p.used ==> p.used[o] in p.rows && p.rows[p.used[o]] == Row(true, None)
  }

  ghost predicate UsedOnce<K>(p: PoolState<K>) {
    forall a, b :: a in p.used && b in p.used && a != b ==> p.used[a] != p.used[b]
  }

  /** Every lock belongs to the one transaction that holds the row, every row in use is
      committed as allocated, and no row has two users. */
  ghost predicate PoolOk<K(!new)>(p: PoolState<K>) {
    HeldOk(p) && LocksOk(p) && UsedOk(p) && UsedOnce(p)
  }

  lemma TakesKeepsPool<K(!new)>(p: PoolState<K>, t: TxId, k: K, p': PoolState<K>)
    requires PoolOk(p) && Takes(p, t, k, p')
    ensures PoolOk(p')
  {
  }

  lemma CommitsKeepsPool<K(!new)>(p: PoolState<K>, t: TxId, o: OwnerId, p': PoolState<K>)
    requires PoolOk(p) && Commits(p, t, o, p')
    ensures PoolOk(p')
  {
    if t in p.held {
      var k := p.held[t];
      assert forall b :: b in p.used ==> p.used[b] != k;
    }
  }

  lemma AbortsKeepsPool<K(!new)>(p: PoolState<K>, t: TxId, p': PoolState<K>)
    requires PoolOk(p) && Aborts(p, t, p')
    ensures PoolOk(p')
  {
  }

  /** A release keeps the pool consistent if and only if nobody else uses the row by then. */
  lemma ReleasesKeepsPool<K(!new)>(p: PoolState<K>, o: OwnerId, k: K, p': PoolState<K>)
    requires PoolOk(p) && Releases(p, o, k, p')
    ensures PoolOk(p') <==> forall other :: other in p.used && other != o ==> p.used[other] != k
  {
    if other :| other in p.used && other != o && p.used[other] == k {
      assert other in p'.used && p'.rows[p'.used[other]] == FREE;
      assert !UsedOk(p');
    } else {
      assert UsedOnce(p') && LocksOk(p') && HeldOk(p');
      assert UsedOk(p');
    }
  }

  /** Two hands never reach the same row. */
  lemma RowsAreExclusive<K(!new)>(p: PoolState<K>)
    requires PoolOk(p)
    ensures forall s, t :: s in p.held && t in p.held && s != t ==> p.held[s] != p.held[t]
    ensures forall t, o :: t in p.held && o in p.used ==> p.held[t] != p.used[o]
    ensures forall a, b :: a in p.used && b in p.used && a != b ==> p.used[a] != p.used[b]
  {
  }

  // ---------------------------------------------------------------- the pool as the code sees it

  /** Rows whose status query matches and that `SKIP LOCKED` does not skip. */
  function Candidates<K>(rows: map<K, Row>, wanted: set<K>): set<K> {
    set k | k in rows && k in wanted && rows[k] == FREE
  }

  class Pool<K(==, !new)> {
    var rows: map<K, Row>
    ghost var held: map<TxId, K>
    ghost var used: map<OwnerId, K>

    ghost function State(): PoolState<K>
      reads this
    {
      PoolState(rows, held, used)
    }

    /** `filter_by(...).with_for_update(skip_locked=True).first()` and the status update; the
        update is committed or rolled back with the transaction. */
    method Take(t: TxId, wanted: set<K>) returns (taken: Option<K>)
      requires PoolOk(State()) && t !in held
      modifies this
      ensures PoolOk(State())
      ensures taken.None? <==> Candidates(old(rows), wanted) == {}
      ensures taken.None? <==> forall k :: k in old(rows) && k in wanted ==> old(rows)[k] != Row(false, None)
      ensures taken.None? ==> State() == old(State())
      ensures taken.Some? ==> taken.value in wanted && Takes(old(State()), t, taken.value, State())
    {
      var candidates := Candidates(rows, wanted);
      assert forall k :: k in rows && k in wanted && rows[k] == Row(false, None) ==> k in candidates;
      if candidates == {} {
        return None;
      }
      var k :| k in candidates;
      ghost var before := State();
      rows := rows[k := Row(false, Some(t))];
      held := held[t := k];
      TakesKeepsPool(before, t, k, State());
      taken := Some(k);
    }

    method Commit(t: TxId, o: OwnerId, taken: Option<K>)
      requires PoolOk(State()) && o !in used
      requires if taken.Some? then t in held && held[t] == taken.value else t !in held
      modifies this
      ensures PoolOk(State()) && Commits(old(State()), t, o, State())
    {
      ghost var before := State();
      if taken.Some? {
        rows := rows[taken.value := Row(true, None)];
        held := held - {t};
        used := used[o := taken.value];
      }
      CommitsKeepsPool(before, t, o, State());
    }

    method Rollback(t: TxId, taken: Option<K>)
      requires PoolOk(State())
      requires if taken.Some? then t in held && held[t] == taken.value else t !in held
      modifies this
      ensures PoolOk(State()) && Aborts(old(State()), t, State())
    {
      ghost var before := State();
      if taken.Some? {
        rows := rows[taken.value := FREE];
        held := held - {t};
      }
      AbortsKeepsPool(before, t, State());
    }

    method Release(o: OwnerId, k: K)
      requires PoolOk(State()) && (k in rows ==> rows[k].lock.None?)
      modifies this
      ensures Releases(old(State()), o, k, State())
    {
      if k in rows {
        rows := rows[k := FREE];
      }
      used := used - {o};
    }
  }

  /** Taking a row and rolling back restores the pool. */
  lemma TakeThenRollback<K>(p: PoolState<K>, t: TxId, k: K, p1: PoolState<K>, p2: PoolState<K>)
    requires Takes(p, t, k, p1) && Aborts(p1, t, p2)
    ensures p2 == p
  {
    assert p.held[t := k] - {t} == p.held;
    assert p.rows[k := Row(false, Some(t))][k := FREE] == p.rows;
  }

  /** With `autoflush=False` a second allocation in the same transaction still sees its own row
      as free: the query matches the committed status and does not skip a lock of its own. */
  predicate VisibleAgain(row: Row, t: TxId) {
    !row.inUse && (row.lock.None? || row.lock == Some(t))
  }

  lemma SecondAllocationRepeatsRow<K>(p: PoolState<K>, t: TxId, k: K, p1: PoolState<K>)
    requires Takes(p, t, k, p1)
    ensures VisibleAgain(p1.rows[k], t)
    ensures forall s: TxId :: s != t ==> !VisibleAgain(p1.rows[k], s)
    ensures forall j, s :: j in p1.rows && p1.rows[j].inUse ==> !VisibleAgain(p1.rows[j], s)
  {
  }
}
