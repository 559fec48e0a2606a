/** The order of rules on the firewall: `move_rule_before`, the reorder loop of
    `apply_all_pending_rules_task`, and what that loop does to the order. */
module RuleOrder {

  // ---------------------------------------------------------------- sequences without repeats

  ghost predicate Distinct<T>(s: seq<T>) {
    forall i, j :: 0 <= i < j < |s| ==> s[i] != s[j]
  }

  function Elements<T(==)>(s: seq<T>): set<T> {
    set x | x in s
  }

  function IndexOf<T(==)>(s: seq<T>, x: T): (k: nat)
    requires x in s
    ensures k < |s| && s[k] == x
    ensures forall j :: 0 <= j < k ==> s[j] != x
  {
    if s[0] == x then 0 else 1 + IndexOf(s[1..], x)
  }

  function Remove<T(==)>(s: seq<T>, x: T): seq<T>
    requires x in s
  {
    s[..IndexOf(s, x)] + s[IndexOf(s, x) + 1..]
  }

  function InsertBefore<T(==)>(s: seq<T>, x: T, reference: T): seq<T>
    requires reference in s
  {
    s[..IndexOf(s, reference)] + [x] + s[IndexOf(s, reference)..]
  }

  /** `x` stands somewhere before `y`. */
  ghost predicate Before<T>(s: seq<T>, x: T, y: T) {
    exists i, j :: 0 <= i < j < |s| && s[i] == x && s[j] == y
  }

  /** `y` is the immediate successor of `x`. */
  ghost predicate Adjacent<T>(s: seq<T>, x: T, y: T) {
    exists i :: 0 <= i < |s| - 1 && s[i] == x && s[i + 1] == y
  }

  /** Every two elements of both sequences outside `moved` stand in the same order. */
  ghost predicate KeepsOrder<T(!new)>(before: seq<T>, after: seq<T>, moved: set<T>) {
    forall x, y :: x !in moved && y !in moved && x in after && y in after && Before(before, x, y) ==>
        Before(after, x, y)
  }

  lemma AppendElements<T>(s: seq<T>, x: T)
    ensures Elements(s + [x]) == Elements(s) + {x}
    ensures Distinct(s) && x !in s ==> Distinct(s + [x])
  {
  }

  lemma {:induction false} DistinctSize<T>(s: seq<T>)
    requires Distinct(s)
    ensures |Elements(s)| == |s|
  {
    if s != [] {
      var front, last := s[..|s| - 1], s[|s| - 1];
      DistinctSize(front);
      assert s == front + [last];
      AppendElements(front, last);
    }
  }

  lemma PrefixStep<T>(s: seq<T>, i: nat)
    requires Distinct(s) && i < |s|
    ensures s[..i + 1] == s[..i] + [s[i]]
    ensures Elements(s[..i + 1]) == Elements(s[..i]) + {s[i]} && s[i] !in Elements(s[..i])
  {
    AppendElements(s[..i], s[i]);
  }

  lemma DistinctIndex<T>(s: seq<T>, i: nat)
    requires Distinct(s) && i < |s|
    ensures IndexOf(s, s[i]) == i
  {
  }

  lemma BeforeIndex<T>(s: seq<T>, x: T, y: T)
    requires Distinct(s) && x in s && y in s
    ensures Before(s, x, y) <==> IndexOf(s, x) < IndexOf(s, y)
  {
    if Before(s, x, y) {
      var i, j :| 0 <= i < j < |s| && s[i] == x && s[j] == y;
      DistinctIndex(s, i);
      DistinctIndex(s, j);
    }
  }

  // ---------------------------------------------------------------- move_rule_before

  /** Takes `x` out and puts it back immediately before `reference`. */
  function MoveBefore<T(==)>(s: seq<T>, x: T, reference: T): seq<T>
    requires x in s && reference in s && x != reference
  {
    var rest := Remove(s, x);
    RemoveSkips(s, x);
    SkipsIn(s, rest, IndexOf(s, x), reference);
    InsertBefore(rest, x, reference)
  }

  /** `part` is `whole` without its position `k`. */
  ghost predicate Skips<T>(whole: seq<T>, part: seq<T>, k: nat) {
    && k < |whole| && |part| == |whole| - 1
    && (forall i :: 0 <= i < k ==> part[i] == whole[i])
    && (forall i :: k <= i < |part| ==> part[i] == whole[i + 1])
  }

  lemma SkipsBefore<T>(whole: seq<T>, part: seq<T>, k: nat, u: T, v: T)
    requires Skips(whole, part, k) && u != whole[k] && v != whole[k]
    ensures Before(whole, u, v) <==> Before(part, u, v)
  {
    if Before(whole, u, v) {
      var i, j :| 0 <= i < j < |whole| && whole[i] == u && whole[j] == v;
      var i', j' := if i < k then i else i - 1, if j < k then j else j - 1;
      assert part[i'] == u && part[j'] == v;
    }
    if Before(part, u, v) {
      var i, j :| 0 <= i < j < |part| && part[i] == u && part[j] == v;
      var i', j' := if i < k then i else i + 1, if j < k then j else j + 1;
      assert whole[i'] == u && whole[j'] == v;
    }
  }

  lemma SkipsIn<T>(whole: seq<T>, part: seq<T>, k: nat, u: T)
    requires Skips(whole, part, k)
    ensures u in whole <==> u in part || u == whole[k]
  {
    if u in whole {
      var i :| 0 <= i < |whole| && whole[i] == u;
      if i != k { assert part[if i < k then i else i - 1] == u; }
    }
    if u in part {
      var i :| 0 <= i < |part| && part[i] == u;
      assert whole[if i < k then i else i + 1] == u;
    }
  }

  lemma SkipsAdjacent<T>(whole: seq<T>, part: seq<T>, k: nat, u: T, v: T)
    requires Skips(whole, part, k)
    ensures u != whole[k] && v != whole[k] && Adjacent(whole, u, v) ==> Adjacent(part, u, v)
    ensures Adjacent(part, u, v) && (k < |part| ==> v != part[k]) ==> Adjacent(whole, u, v)
  {
    if u != whole[k] && v != whole[k] && Adjacent(whole, u, v) {
      var i :| 0 <= i < |whole| - 1 && whole[i] == u && whole[i + 1] == v;
      var i' := if i < k then i else i - 1;
      assert part[i'] == u && part[i' + 1] == v;
    }
    if Adjacent(part, u, v) && (k < |part| ==> v != part[k]) {
      var i :| 0 <= i < |part| - 1 && part[i] == u && part[i + 1] == v;
      var i' := if i < k then i else i + 1;
      assert whole[i'] == u && whole[i' + 1] == v;
    }
  }

  lemma RemoveSkips<T>(s: seq<T>, x: T)
    requires x in s
    ensures Skips(s, Remove(s, x), IndexOf(s, x))
  {
  }

  lemma InsertSkips<T>(s: seq<T>, x: T, reference: T)
    requires reference in s
    ensures Skips(InsertBefore(s, x, reference), s, IndexOf(s, reference))
    ensures InsertBefore(s, x, reference)[IndexOf(s, reference)] == x
  {
  }

  lemma SkipsDistinct<T>(whole: seq<T>, part: seq<T>, k: nat)
    requires Skips(whole, part, k)
    ensures Distinct(whole) <==> Distinct(part) && whole[k] !in part
  {
    if Distinct(part) && whole[k] !in part {
      forall i, j | 0 <= i < j < |whole|
        ensures whole[i] != whole[j]
      {
        if i < k { assert whole[i] == part[i]; }
        if i > k { assert whole[i] == part[i - 1]; }
        if j < k { assert whole[j] == part[j]; }
        if j > k { assert whole[j] == part[j - 1]; }
      }
    }
  }

  lemma MoveBeforeShape<T>(s: seq<T>, x: T, reference: T)
    requires Distinct(s) && x in s && reference in s && x != reference
    ensures var r := MoveBefore(s, x, reference);
            && Distinct(r) && Elements(r) == Elements(s) && Adjacent(r, x, reference)
  {
    var rest, from, r := Remove(s, x), IndexOf(s, x), MoveBefore(s, x, reference);
    RemoveSkips(s, x);
    SkipsDistinct(s, rest, from);
    SkipsIn(s, rest, from, reference);
    var to := IndexOf(rest, reference);
    InsertSkips(rest, x, reference);
    SkipsDistinct(r, rest, to);
    assert r[to + 1] == rest[to];
    assert Elements(r) == Elements(s) by {
      forall u | u in s
        ensures u in r
      {
        SkipsIn(s, rest, from, u);
        SkipsIn(r, rest, to, u);
      }
      forall u | u in r
        ensures u in s
      {
        SkipsIn(s, rest, from, u);
        SkipsIn(r, rest, to, u);
      }
    }
  }

  /** A move keeps the elements and the order of all others, puts `x` right before
      `reference`, and breaks no adjacent pair other than the one ending at `reference`. */
  lemma MoveBeforeEffect<T(!new)>(s: seq<T>, x: T, reference: T)
    requires Distinct(s) && x in s && reference in s && x != reference
    ensures var r := MoveBefore(s, x, reference);
            && Distinct(r) && Elements(r) == Elements(s)
            && Adjacent(r, x, reference)
            && KeepsOrder(s, r, {x})
            && (forall u, v :: u != x && v != x && v != reference && Adjacent(s, u, v) ==> Adjacent(r, u, v))
  {
    MoveBeforeShape(s, x, reference);
    var rest, from, r := Remove(s, x), IndexOf(s, x), MoveBefore(s, x, reference);
    RemoveSkips(s, x);
    SkipsIn(s, rest, from, reference);
    var to := IndexOf(rest, reference);
    SkipsDistinct(s, rest, from);
    InsertSkips(rest, x, reference);
    forall u, v
      ensures u != x && v != x && Before(s, u, v) ==> Before(r, u, v)
      ensures u != x && v != x && v != reference && Adjacent(s, u, v) ==> Adjacent(r, u, v)
    {
      MoveBeforePair(s, r, rest, x, from, to, u, v);
    }
  }

  lemma MoveBeforePair<T>(s: seq<T>, r: seq<T>, rest: seq<T>, x: T, from: nat, to: nat, u: T, v: T)
    requires Skips(s, rest, from) && s[from] == x && Skips(r, rest, to) && r[to] == x && to < |rest|
    ensures u != x && v != x && Before(s, u, v) ==> Before(r, u, v)
    ensures u != x && v != x && v != rest[to] && Adjacent(s, u, v) ==> Adjacent(r, u, v)
  {
    if u != x && v != x {
      SkipsBefore(s, rest, from, u, v);
      SkipsBefore(r, rest, to, u, v);
      SkipsAdjacent(s, rest, from, u, v);
      SkipsAdjacent(r, rest, to, u, v);
    }
  }

  // ---------------------------------------------------------------- removing several elements

  /** The elements outside `gone`, in their order. */
  function Without<T(==)>(s: seq<T>, gone: set<T>): seq<T> {
    if s == [] then []
    else
      var front, last := Without(s[..|s| - 1], gone), s[|s| - 1];
      if last in gone then front else front + [last]
  }

  lemma {:induction false} WithoutElements<T>(s: seq<T>, gone: set<T>)
    ensures Elements(Without(s, gone)) == Elements(s) - gone
  {
    if s != [] {
      var front, last := s[..|s| - 1], s[|s| - 1];
      WithoutElements(front, gone);
      assert s == front + [last];
      AppendElements(front, last);
      AppendElements(Without(front, gone), last);
    }
  }

  lemma {:induction false} WithoutNothing<T>(s: seq<T>)
    ensures Without(s, {}) == s
  {
    if s != [] {
      WithoutNothing(s[..|s| - 1]);
    }
  }

  /** Removing one more element from the remaining ones. */
  lemma {:induction false} WithoutOneMore<T>(s: seq<T>, gone: set<T>, x: T)
    requires Distinct(s) && x in Without(s, gone)
    ensures Without(s, gone + {x}) == Remove(Without(s, gone), x)
  {
    var front, last := s[..|s| - 1], s[|s| - 1];
    var rest := Without(front, gone);
    assert s == front + [last];
    if last == x {
      WithoutOthers(front, gone, x);
      NotInFront(front, gone, x, s);
      RemoveLast(rest, x);
    } else {
      if last !in gone {
        RemoveEarlier(rest, x, last);
      }
      WithoutOneMore(front, gone, x);
    }
  }

  lemma NotInFront<T>(front: seq<T>, gone: set<T>, x: T, s: seq<T>)
    requires Distinct(s) && s == front + [x]
    ensures x !in front && x !in Without(front, gone)
  {
    assert forall i :: 0 <= i < |front| ==> front[i] == s[i] && s[i] != s[|front|];
    WithoutElements(front, gone);
    assert x in Without(front, gone) ==> x in Elements(Without(front, gone));
  }

  lemma {:induction false} WithoutOthers<T>(s: seq<T>, gone: set<T>, x: T)
    requires x !in s
    ensures Without(s, gone + {x}) == Without(s, gone)
  {
    if s != [] {
      WithoutOthers(s[..|s| - 1], gone, x);
    }
  }

  lemma RemoveLast<T>(s: seq<T>, x: T)
    requires x !in s
    ensures Remove(s + [x], x) == s
  {
    assert (s + [x])[|s|] == x;
    assert IndexOf(s + [x], x) == |s|;
  }

  lemma RemoveEarlier<T>(s: seq<T>, x: T, last: T)
    requires x in s + [last] && x != last
    ensures x in s && Remove(s + [last], x) == Remove(s, x) + [last]
  {
    var t := s + [last];
    var k := IndexOf(t, x);
    assert k < |s| && s[k] == x;
    assert forall j :: 0 <= j < k ==> s[j] == t[j];
    assert IndexOf(s, x) == k;
  }

  /** The remaining elements keep their order, also when others are added behind them. */
  lemma {:induction false} WithoutKeepsOrder<T(!new)>(s: seq<T>, gone: set<T>, added: seq<T>)
    requires forall x :: x in added ==> x !in s
    ensures KeepsOrder(s, Without(s, gone) + added, {})
  {
    forall x, y | x in Without(s, gone) + added && y in Without(s, gone) + added && Before(s, x, y)
      ensures Before(Without(s, gone) + added, x, y)
    {
      var r := Without(s, gone);
      WithoutElements(s, gone);
      assert x in Elements(s) && y in Elements(s);
      assert x in r && y in r;
      assert x in Elements(r) && y in Elements(r);
      WithoutBefore(s, gone, x, y);
      var i, j :| 0 <= i < j < |r| && r[i] == x && r[j] == y;
      assert (r + added)[i] == x && (r + added)[j] == y;
    }
  }

  lemma {:induction false} WithoutBefore<T>(s: seq<T>, gone: set<T>, x: T, y: T)
    requires Before(s, x, y) && x !in gone && y !in gone
    ensures Before(Without(s, gone), x, y)
  {
    var front, last := s[..|s| - 1], s[|s| - 1];
    var r, t := Without(front, gone), Without(s, gone);
    var i, j :| 0 <= i < j < |s| && s[i] == x && s[j] == y;
    WithoutElements(front, gone);
    assert front[i] == x;
    assert x in Elements(front);
    assert x in Elements(r);
    if j < |front| {
      assert front[j] == y;
      WithoutBefore(front, gone, x, y);
      var a, b :| 0 <= a < b < |r| && r[a] == x && r[b] == y;
      assert t[a] == x && t[b] == y;
    } else {
      var a :| 0 <= a < |r| && r[a] == x;
      assert t == r + [y];
      assert t[a] == x && t[|r|] == y;
    }
  }

  // ---------------------------------------------------------------- the reorder loop

  /** Index `j` is visited with both rules on the firewall, and its move does not fail. */
  ghost predicate Moves<T>(order: seq<T>, desired: seq<T>, failing: set<nat>, j: nat) {
    j + 1 < |desired| && desired[j] in order && desired[j + 1] in order && j !in failing
  }

  /** The order after the loop has come down to index `from`: last pair first, each rule
      moved before its successor in the database order. */
  ghost function Reorder<T>(order: seq<T>, desired: seq<T>, failing: set<nat>, from: nat): (r: seq<T>)
    requires Distinct(order) && Distinct(desired)
    ensures Distinct(r) && Elements(r) == Elements(order)
    decreases |desired| - from
  {
    if from + 1 >= |desired| then order
    else
      var later := Reorder(order, desired, failing, from + 1);
      if Moves(order, desired, failing, from) then
        assert desired[from] in Elements(order) && desired[from + 1] in Elements(order);
        ReorderStep(later, desired, from);
        MoveBefore(later, desired[from], desired[from + 1])
      else later
  }

  lemma ReorderStep<T>(later: seq<T>, desired: seq<T>, from: nat)
    requires Distinct(later) && Distinct(desired) && from + 1 < |desired|
    requires desired[from] in later && desired[from + 1] in later
    ensures var r := MoveBefore(later, desired[from], desired[from + 1]);
            Distinct(r) && Elements(r) == Elements(later)
  {
    MoveBeforeShape(later, desired[from], desired[from + 1]);
  }

  ghost function Movers<T>(order: seq<T>, desired: seq<T>, failing: set<nat>, from: nat): set<T> {
    set j: nat | from <= j < |desired| && Moves(order, desired, failing, j) :: desired[j]
  }

  /** Every move that succeeded is still visible at the end of the loop, whatever the other
      calls did; rules that were not moved keep their relative order. */
  lemma {:induction false} ReorderEffect<T(!new)>(order: seq<T>, desired: seq<T>, failing: set<nat>, from: nat)
    requires Distinct(order) && Distinct(desired)
    ensures var r := Reorder(order, desired, failing, from);
            && KeepsOrder(order, r, Movers(order, desired, failing, from))
            && forall j: nat :: from <= j && Moves(order, desired, failing, j) ==>
                Adjacent(r, desired[j], desired[j + 1])
    decreases |desired| - from
  {
    if from + 1 < |desired| {
      var later, r := Reorder(order, desired, failing, from + 1), Reorder(order, desired, failing, from);
      ReorderEffect(order, desired, failing, from + 1);
      if Moves(order, desired, failing, from) {
        var x := desired[from];
        assert x in Elements(order) && desired[from + 1] in Elements(order);
        MoveBeforeEffect(later, x, desired[from + 1]);
        MoversStep(order, desired, failing, from);
        forall j: nat | from <= j && Moves(order, desired, failing, j)
          ensures Adjacent(r, desired[j], desired[j + 1])
        {
          if j > from {
            assert Adjacent(later, desired[j], desired[j + 1]);
          }
        }
        ComposeOrder(order, later, r, Movers(order, desired, failing, from + 1), x);
      } else {
        MoversStep(order, desired, failing, from);
      }
    }
  }

  lemma MoversStep<T>(order: seq<T>, desired: seq<T>, failing: set<nat>, from: nat)
    requires from < |desired|
    ensures Movers(order, desired, failing, from)
            == Movers(order, desired, failing, from + 1)
               + if Moves(order, desired, failing, from) then {desired[from]} else {}
  {
  }

  lemma ComposeOrder<T(!new)>(a: seq<T>, b: seq<T>, c: seq<T>, moved: set<T>, x: T)
    requires Elements(b) == Elements(c)
    requires KeepsOrder(a, b, moved) && KeepsOrder(b, c, {x})
    ensures KeepsOrder(a, c, moved + {x})
  {
    forall u, v | u !in moved + {x} && v !in moved + {x} && u in c && v in c && Before(a, u, v)
      ensures Before(c, u, v)
    {
      assert u in Elements(b) && v in Elements(b);
      assert Before(b, u, v);
    }
  }

  // ---------------------------------------------------------------- blocks

  lemma AdjacentIndex<T>(s: seq<T>, x: T, y: T)
    requires Distinct(s) && Adjacent(s, x, y)
    ensures x in s && y in s && IndexOf(s, y) == IndexOf(s, x) + 1
  {
    var i :| 0 <= i < |s| - 1 && s[i] == x && s[i + 1] == y;
    DistinctIndex(s, i);
    DistinctIndex(s, i + 1);
  }

  ghost predicate BlockAt<T>(s: seq<T>, k: nat, block: seq<T>) {
    k + |block| <= |s| && s[k..k + |block|] == block
  }

  /** `block` occurs in `s` contiguously. */
  ghost predicate IsBlock<T>(s: seq<T>, block: seq<T>) {
    exists k: nat :: BlockAt(s, k, block)
  }

  /** Every visited pair from `lo` up to `hi` was moved successfully. */
  ghost predicate Run<T>(order: seq<T>, desired: seq<T>, failing: set<nat>, lo: nat, hi: nat) {
    lo <= hi < |desired| && desired[lo] in order && forall j :: lo <= j < hi ==> Moves(order, desired, failing, j)
  }

  lemma {:induction false} RunPositions<T(!new)>(order: seq<T>, desired: seq<T>, failing: set<nat>, lo: nat, hi: nat)
    requires Distinct(order) && Distinct(desired) && Run(order, desired, failing, lo, hi)
    ensures var r := Reorder(order, desired, failing, 0);
            && desired[lo] in r && desired[hi] in r
            && IndexOf(r, desired[hi]) == IndexOf(r, desired[lo]) + (hi - lo)
    decreases hi - lo
  {
    var r := Reorder(order, desired, failing, 0);
    assert desired[lo] in Elements(r);
    if lo < hi {
      RunPositions(order, desired, failing, lo, hi - 1);
      ReorderEffect(order, desired, failing, 0);
      assert Moves(order, desired, failing, hi - 1);
      AdjacentIndex(r, desired[hi - 1], desired[hi]);
    }
  }

  /** A run of database rules that are all on the firewall ends as one contiguous block, in
      database order, provided its own moves succeed. */
  lemma RunIsBlock<T(!new)>(order: seq<T>, desired: seq<T>, failing: set<nat>, lo: nat, hi: nat)
    requires Distinct(order) && Distinct(desired) && Run(order, desired, failing, lo, hi)
    ensures var r := Reorder(order, desired, failing, 0);
            IsBlock(r, desired[lo..hi + 1])
  {
    var r := Reorder(order, desired, failing, 0);
    RunPositions(order, desired, failing, lo, hi);
    var k := IndexOf(r, desired[lo]);
    forall j | lo <= j <= hi
      ensures k + (j - lo) < |r| && r[k + (j - lo)] == desired[j]
    {
      RunPositions(order, desired, failing, lo, j);
    }
    BlockFromPositions(r, desired, lo, hi, k);
  }

  lemma BlockFromPositions<T>(r: seq<T>, desired: seq<T>, lo: nat, hi: nat, k: nat)
    requires lo <= hi < |desired|
    requires forall j :: lo <= j <= hi ==> k + (j - lo) < |r| && r[k + (j - lo)] == desired[j]
    ensures BlockAt(r, k, desired[lo..hi + 1])
  {
    var block := desired[lo..hi + 1];
    assert desired[hi] == r[k + (hi - lo)];
    forall i | 0 <= i < |block|
      ensures r[k..k + |block|][i] == block[i]
    {
      assert desired[lo + i] == r[k + ((lo + i) - lo)];
    }
  }

  // ---------------------------------------------------------------- when the order is the database order

  /** The rules of `desired` that are in `s` stand there in the order of `desired`. */
  ghost predicate InOrder<T>(s: seq<T>, desired: seq<T>) {
    forall i, j :: 0 <= i < j < |desired| && desired[i] in s && desired[j] in s ==> Before(s, desired[i], desired[j])
  }

  /** The last rule of a maximal run: it is on the firewall and its successor is not. */
  ghost predicate Anchor<T>(order: seq<T>, desired: seq<T>, j: nat) {
    j < |desired| && desired[j] in order && (j + 1 < |desired| ==> desired[j + 1] !in order)
  }

  ghost predicate AnchorsInOrder<T>(order: seq<T>, desired: seq<T>) {
    forall i, j :: 0 <= i < j && Anchor(order, desired, i) && Anchor(order, desired, j) ==>
        Before(order, desired[i], desired[j])
  }

  ghost function AnchorOf<T>(order: seq<T>, desired: seq<T>, j: nat): (a: nat)
    requires j < |desired| && desired[j] in order
    ensures j <= a && Anchor(order, desired, a)
    ensures Run(order, desired, {}, j, a)
    decreases |desired| - j
  {
    if j + 1 < |desired| && desired[j + 1] in order then
      var a := AnchorOf(order, desired, j + 1);
      assert Moves(order, desired, {}, j);
      a
    else j
  }

  lemma AnchorsStay<T(!new)>(order: seq<T>, desired: seq<T>, i: nat, j: nat)
    requires Distinct(order) && Distinct(desired)
    requires i != j && Anchor(order, desired, i) && Anchor(order, desired, j)
    ensures Before(order, desired[i], desired[j]) <==> Before(Reorder(order, desired, {}, 0), desired[i], desired[j])
  {
    var r := Reorder(order, desired, {}, 0);
    ReorderEffect(order, desired, {}, 0);
    var moved := Movers(order, desired, {}, 0);
    assert desired[i] !in moved && desired[j] !in moved;
    assert desired[i] in Elements(r) && desired[j] in Elements(r);
    BeforeIndex(order, desired[i], desired[j]);
    BeforeIndex(order, desired[j], desired[i]);
    BeforeIndex(r, desired[i], desired[j]);
    BeforeIndex(r, desired[j], desired[i]);
    assert order[IndexOf(order, desired[i])] != order[IndexOf(order, desired[j])];
  }

  /** Rules of different runs stand as their anchors do. */
  lemma AnchorsDecide<T(!new)>(order: seq<T>, desired: seq<T>, i: nat, j: nat)
    requires Distinct(order) && Distinct(desired) && AnchorsInOrder(order, desired)
    requires i < j < |desired| && desired[i] in order && desired[j] in order
    ensures Before(Reorder(order, desired, {}, 0), desired[i], desired[j])
  {
    var r := Reorder(order, desired, {}, 0);
    var a, b := AnchorOf(order, desired, i), AnchorOf(order, desired, j);
    RunPositions(order, desired, {}, i, a);
    RunPositions(order, desired, {}, j, b);
    assert desired[i] in Elements(r) && desired[j] in Elements(r);
    if j <= a {
      RunPositions(order, desired, {}, i, j);
    } else {
      assert a < j <= b;
      AnchorsStay(order, desired, a, b);
      BeforeIndex(r, desired[a], desired[b]);
      assert IndexOf(r, desired[a]) < IndexOf(r, desired[b]);
      NotInsideRun(order, desired, j, b, a);
    }
    BeforeIndex(r, desired[i], desired[j]);
  }

  lemma NotInsideRun<T(!new)>(order: seq<T>, desired: seq<T>, lo: nat, hi: nat, a: nat)
    requires Distinct(order) && Distinct(desired) && Run(order, desired, {}, lo, hi)
    requires a < lo && desired[a] in Reorder(order, desired, {}, 0)
    ensures var r := Reorder(order, desired, {}, 0);
            && desired[lo] in r && desired[hi] in r
            && (IndexOf(r, desired[a]) < IndexOf(r, desired[hi]) ==> IndexOf(r, desired[a]) < IndexOf(r, desired[lo]))
  {
    var r := Reorder(order, desired, {}, 0);
    RunPositions(order, desired, {}, lo, hi);
    var p, q := IndexOf(r, desired[a]), IndexOf(r, desired[lo]);
    if q <= p < IndexOf(r, desired[hi]) {
      var j := lo + (p - q);
      RunPositions(order, desired, {}, lo, j);
      assert false;
    }
  }

  /** With every move succeeding, the firewall ends in database order if and only if the
      anchors of the runs already stood in database order before the loop. */
  lemma ReorderReachesDatabaseOrder<T(!new)>(order: seq<T>, desired: seq<T>)
    requires Distinct(order) && Distinct(desired)
    ensures InOrder(Reorder(order, desired, {}, 0), desired) <==> AnchorsInOrder(order, desired)
  {
    var r := Reorder(order, desired, {}, 0);
    if InOrder(r, desired) {
      forall i, j | 0 <= i < j && Anchor(order, desired, i) && Anchor(order, desired, j)
        ensures Before(order, desired[i], desired[j])
      {
        assert desired[i] in Elements(r) && desired[j] in Elements(r);
        AnchorsStay(order, desired, i, j);
      }
    }
    if AnchorsInOrder(order, desired) {
      forall i, j | 0 <= i < j < |desired| && desired[i] in r && desired[j] in r
        ensures Before(r, desired[i], desired[j])
      {
        assert desired[i] in Elements(order) && desired[j] in Elements(order);
        AnchorsDecide(order, desired, i, j);
      }
    }
  }

  /** In particular when every database rule is on the firewall, and there the database
      rules form a single block. */
  lemma AllPresentReachesDatabaseOrder<T(!new)>(order: seq<T>, desired: seq<T>)
    requires Distinct(order) && Distinct(desired)
    requires forall x :: x in desired ==> x in order
    ensures var r := Reorder(order, desired, {}, 0);
            InOrder(r, desired) && IsBlock(r, desired)
  {
    var r := Reorder(order, desired, {}, 0);
    ReorderReachesDatabaseOrder(order, desired);
    if desired == [] {
      assert BlockAt(r, 0, desired);
    } else {
      RunIsBlock(order, desired, {}, 0, |desired| - 1);
      assert desired[0..|desired|] == desired;
    }
  }

  /** A rule that is being deleted splits the runs: the rules around it can be left in the
      opposite of their database order although every move succeeded. */
  lemma DeletionLeavesWrongOrder()
    ensures !InOrder(Reorder(["b", "a"], ["a", "deleted", "b"], {}, 0), ["a", "deleted", "b"])
  {
    var order, desired := ["b", "a"], ["a", "deleted", "b"];
    assert Anchor(order, desired, 0) && Anchor(order, desired, 2);
    assert !Before(order, desired[0], desired[2]);
    ReorderReachesDatabaseOrder(order, desired);
  }
}
