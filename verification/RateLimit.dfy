/** The sliding-window rate limiters. The clock is an abstract monotone real-valued clock that
    the code may read more than once per request. */
module RateLimit {
  import opened Sets

  /** `Crash` is the IndexError of the in-memory limiter on an empty list. */
  datatype Verdict = Allowed(remaining: int) | Denied(retryAfter: int) | Crash

  // ---------------------------------------------------------------- shared arithmetic

  /** Python's `int` of a float: truncation toward zero. */
  function Truncate(x: real): int {
    if x >= 0.0 then x.Floor else -((-x).Floor)
  }

  function Max(a: int, b: int): int {
    if a >= b then a else b
  }

  function RetryAfter(period: int, now: real, oldest: real): int {
    Max(1, Truncate(period as real - (now - oldest)) + 1)
  }

  /** `[t for t in times if t > cutoff]` */
  function After(times: seq<real>, cutoff: real): seq<real> {
    if times == [] then []
    else After(times[..|times| - 1], cutoff) + if times[|times| - 1] > cutoff then [times[|times| - 1]] else []
  }

  lemma {:induction false} AfterAppend(a: seq<real>, x: real, cutoff: real)
    ensures After(a + [x], cutoff) == After(a, cutoff) + if x > cutoff then [x] else []
  {
    assert (a + [x])[..|a|] == a;
  }

  lemma {:induction false} AfterTwice(times: seq<real>, c1: real, c2: real)
    requires c1 <= c2
    ensures After(After(times, c1), c2) == After(times, c2)
  {
    if times != [] {
      var front, last := times[..|times| - 1], times[|times| - 1];
      AfterTwice(front, c1, c2);
      AfterAppend(After(front, c1), last, c2);
      assert After(front, c1) + [] == After(front, c1);
    }
  }

  ghost predicate Ascending(times: seq<real>) {
    forall i, j :: 0 <= i < j < |times| ==> times[i] <= times[j]
  }

  /** The list keeps its elements from `k` on and drops the rest. */
  ghost predicate CutAt(times: seq<real>, cutoff: real, k: nat) {
    && k <= |times|
    && (forall i :: 0 <= i < k ==> times[i] <= cutoff)
    && (forall i :: k <= i < |times| ==> times[i] > cutoff)
  }

  /** On an ascending list the purge keeps a suffix. */
  lemma {:induction false} AfterIsSuffix(times: seq<real>, cutoff: real) returns (k: nat)
    requires Ascending(times)
    ensures CutAt(times, cutoff, k) && After(times, cutoff) == times[k..]
  {
    k := 0;
    while k < |times| && times[k] <= cutoff
      invariant k <= |times| && forall i :: 0 <= i < k ==> times[i] <= cutoff
    {
      k := k + 1;
    }
    CutIsAfter(times, cutoff, k);
  }

  lemma {:induction false} CutIsAfter(times: seq<real>, cutoff: real, k: nat)
    requires CutAt(times, cutoff, k)
    ensures After(times, cutoff) == times[k..]
  {
    if times != [] {
      var front, last := times[..|times| - 1], times[|times| - 1];
      assert times == front + [last];
      AfterAppend(front, last, cutoff);
      if k < |times| {
        CutIsAfter(front, cutoff, k);
        assert front[k..] + [last] == times[k..];
      } else {
        CutIsAfter(front, cutoff, k - 1);
      }
    }
  }

  // ---------------------------------------------------------------- one request on one key

  /** The two clock readings of a request: one in the purge, one for the entry or the hint. */
  datatype Reading = Reading(purge: real, entry: real)

  /** `is_allowed` on the list of one key. */
  function Decide(times: seq<real>, maxRequests: int, period: int, at: Reading): (seq<real>, Verdict) {
    var kept := After(times, at.purge - period as real);
    if |kept| >= maxRequests then
      if kept == [] then (kept, Crash) else (kept, Denied(RetryAfter(period, at.entry, kept[0])))
    else (kept + [at.entry], Allowed(maxRequests - |kept| - 1))
  }

  class InMemoryRateLimiter {
    var requests: map<string, seq<real>>

    constructor ()
      ensures requests == map[]
    {
      requests := map[];
    }

    /** The list of a key; a missing key reads as the empty list. */
    function Times(key: string): seq<real>
      reads this
    {
      if key in requests then requests[key] else []
    }

    method Cleanup(key: string, period: int, now: real)
      modifies this
      ensures requests == old(requests)[key := After(old(Times(key)), now - period as real)]
    {
      var cutoff := now - period as real;
      var kept, times := [], Times(key);
      for i := 0 to |times|
        invariant kept == After(times[..i], cutoff) && requests == old(requests)
      {
        assert times[..i + 1] == times[..i] + [times[i]];
        AfterAppend(times[..i], times[i], cutoff);
        if times[i] > cutoff {
          kept := kept + [times[i]];
        }
      }
      assert times[..|times|] == times;
      assert kept == After(times, cutoff);
      requests := requests[key := kept];
    }

    method IsAllowed(key: string, maxRequests: int, period: int, at: Reading) returns (verdict: Verdict)
      modifies this
      ensures (Times(key), verdict) == Decide(old(Times(key)), maxRequests, period, at)
      ensures forall other :: other != key ==> Times(other) == old(Times(other))
    {
      Cleanup(key, period, at.purge);
      var count := |requests[key]|;
      if count >= maxRequests {
        if count == 0 {
          return Crash;
        }
        return Denied(RetryAfter(period, at.entry, requests[key][0]));
      }
      requests := requests[key := requests[key] + [at.entry]];
      verdict := Allowed(maxRequests - count - 1);
    }

    method GetRemaining(key: string, maxRequests: int, period: int, now: real) returns (remaining: int)
      modifies this
      ensures Times(key) == After(old(Times(key)), now - period as real)
      ensures remaining == Max(0, maxRequests - |Times(key)|)
      ensures forall other :: other != key ==> Times(other) == old(Times(other))
    {
      Cleanup(key, period, now);
      remaining := Max(0, maxRequests - |requests[key]|);
    }

    method Reset()
      modifies this
      ensures forall key :: Times(key) == []
    {
      requests := map[];
    }
  }

  // ---------------------------------------------------------------- runs on one key

  /** A call that touches the list of the key: a request, or a query of the remaining budget. */
  datatype Call = Check(at: Reading) | Peek(now: real)

  function Start(c: Call): real { if c.Check? then c.at.purge else c.now }
  function End(c: Call): real { if c.Check? then c.at.entry else c.now }

  ghost predicate Monotone(calls: seq<Call>) {
    && (forall i :: 0 <= i < |calls| ==> Start(calls[i]) <= End(calls[i]))
    && (forall i, j :: 0 <= i < j < |calls| ==> End(calls[i]) <= Start(calls[j]))
  }

  function Step(times: seq<real>, maxRequests: int, period: int, c: Call): seq<real> {
    if c.Check? then Decide(times, maxRequests, period, c.at).0 else After(times, c.now - period as real)
  }

  predicate Admits(times: seq<real>, maxRequests: int, period: int, c: Call) {
    c.Check? && Decide(times, maxRequests, period, c.at).1.Allowed?
  }

  /** The stored list after a run that starts with an unknown key. */
  function Stored(calls: seq<Call>, maxRequests: int, period: int): seq<real> {
    if calls == [] then []
    else Step(Stored(calls[..|calls| - 1], maxRequests, period), maxRequests, period, calls[|calls| - 1])
  }

  /** Every admission of the run, purged or not. */
  function Admissions(calls: seq<Call>, maxRequests: int, period: int): seq<real> {
    if calls == [] then []
    else
      var front, last := calls[..|calls| - 1], calls[|calls| - 1];
      Admissions(front, maxRequests, period)
      + if Admits(Stored(front, maxRequests, period), maxRequests, period, last) then [last.at.entry] else []
  }

  lemma MonotoneFront(calls: seq<Call>)
    requires Monotone(calls) && calls != []
    ensures Monotone(calls[..|calls| - 1])
  {
  }

  lemma {:induction false} AdmissionsAscend(calls: seq<Call>, maxRequests: int, period: int)
    requires Monotone(calls)
    ensures var a := Admissions(calls, maxRequests, period);
            Ascending(a) && forall i :: 0 <= i < |a| && calls != [] ==> a[i] <= End(calls[|calls| - 1])
  {
    if calls != [] {
      MonotoneFront(calls);
      AdmissionsAscend(calls[..|calls| - 1], maxRequests, period);
    }
  }

  /** One call keeps the list the filter of the history, given that its own purge does. */
  lemma FilterStep(stored: seq<real>, history: seq<real>, maxRequests: int, period: int, c: Call)
    requires Start(c) <= End(c) && period > 0
    requires After(stored, Start(c) - period as real) == After(history, Start(c) - period as real)
    ensures Step(stored, maxRequests, period, c)
            == After(history + if Admits(stored, maxRequests, period, c) then [c.at.entry] else [],
                     Start(c) - period as real)
  {
    if Admits(stored, maxRequests, period, c) {
      AfterAppend(history, c.at.entry, Start(c) - period as real);
    } else {
      assert history + [] == history;
    }
  }

  /** The purged list is the filter of the full admission history. */
  lemma {:induction false} StoredIsFilter(calls: seq<Call>, maxRequests: int, period: int)
    requires Monotone(calls) && calls != [] && period > 0
    ensures Stored(calls, maxRequests, period)
            == After(Admissions(calls, maxRequests, period), Start(calls[|calls| - 1]) - period as real)
    decreases |calls|, 1
  {
    var front, last := calls[..|calls| - 1], calls[|calls| - 1];
    var cutoff := Start(last) - period as real;
    PurgedHistory(calls, maxRequests, period);
    FilterStep(Stored(front, maxRequests, period), Admissions(front, maxRequests, period), maxRequests, period, last);
    assert Admissions(calls, maxRequests, period) == Admissions(front, maxRequests, period)
           + if Admits(Stored(front, maxRequests, period), maxRequests, period, last) then [last.at.entry] else [];
  }

  /** What the purge of the last call leaves of the history before it. */
  lemma {:induction false} PurgedHistory(calls: seq<Call>, maxRequests: int, period: int)
    requires Monotone(calls) && calls != [] && period > 0
    ensures var front, cutoff := calls[..|calls| - 1], Start(calls[|calls| - 1]) - period as real;
            After(Stored(front, maxRequests, period), cutoff) == After(Admissions(front, maxRequests, period), cutoff)
    decreases |calls|, 0
  {
    var front, cutoff := calls[..|calls| - 1], Start(calls[|calls| - 1]) - period as real;
    if front != [] {
      MonotoneFront(calls);
      StoredIsFilter(front, maxRequests, period);
      AfterTwice(Admissions(front, maxRequests, period), Start(front[|front| - 1]) - period as real, cutoff);
    }
  }

  // ---------------------------------------------------------------- the window bound

  /** Admissions that are at least `maxRequests` places apart are at least one period apart. */
  ghost predicate Spaced(a: seq<real>, maxRequests: int, period: int) {
    forall i, j :: 0 <= i <= j < |a| && i + maxRequests <= j ==> a[j] - a[i] >= period as real
  }

  lemma {:induction false} AdmissionsAreSpaced(calls: seq<Call>, maxRequests: int, period: int)
    requires Monotone(calls) && period > 0
    ensures Spaced(Admissions(calls, maxRequests, period), maxRequests, period)
  {
    if calls != [] {
      MonotoneFront(calls);
      AdmissionsAreSpaced(calls[..|calls| - 1], maxRequests, period);
      if Admits(Stored(calls[..|calls| - 1], maxRequests, period), maxRequests, period, calls[|calls| - 1]) {
        AdmittedIsSpaced(calls, maxRequests, period);
      } else {
        NotAdmitted(calls, maxRequests, period);
      }
    }
  }

  lemma NotAdmitted(calls: seq<Call>, maxRequests: int, period: int)
    requires calls != []
    requires !Admits(Stored(calls[..|calls| - 1], maxRequests, period), maxRequests, period, calls[|calls| - 1])
    ensures Admissions(calls, maxRequests, period) == Admissions(calls[..|calls| - 1], maxRequests, period)
  {
    var a := Admissions(calls[..|calls| - 1], maxRequests, period);
    assert a + [] == a;
  }

  lemma AdmittedIsSpaced(calls: seq<Call>, maxRequests: int, period: int)
    requires Monotone(calls) && period > 0 && calls != []
    requires Spaced(Admissions(calls[..|calls| - 1], maxRequests, period), maxRequests, period)
    requires Admits(Stored(calls[..|calls| - 1], maxRequests, period), maxRequests, period, calls[|calls| - 1])
    ensures Spaced(Admissions(calls, maxRequests, period), maxRequests, period)
  {
    hide Spaced, Monotone, After, Stored, Ascending;
    var front, last := calls[..|calls| - 1], calls[|calls| - 1];
    AdmittedBelowLimit(calls, maxRequests, period);
    FrontAscends(calls, maxRequests, period);
    AppendSpaced(Admissions(front, maxRequests, period), maxRequests, period, last.at.purge - period as real,
                 last.at.entry);
  }

  lemma {:induction false} NoneWithoutLimit(calls: seq<Call>, maxRequests: int, period: int)
    requires maxRequests <= 0
    ensures Admissions(calls, maxRequests, period) == []
  {
    if calls != [] {
      NoneWithoutLimit(calls[..|calls| - 1], maxRequests, period);
    }
  }

  lemma FrontAscends(calls: seq<Call>, maxRequests: int, period: int)
    requires Monotone(calls) && calls != []
    ensures Ascending(Admissions(calls[..|calls| - 1], maxRequests, period))
  {
    MonotoneFront(calls);
    AdmissionsAscend(calls[..|calls| - 1], maxRequests, period);
  }

  /** A request is admitted only when fewer than `maxRequests` earlier admissions are younger
      than one period, in the full history. */
  lemma AdmittedBelowLimit(calls: seq<Call>, maxRequests: int, period: int)
    requires Monotone(calls) && period > 0 && calls != []
    requires Admits(Stored(calls[..|calls| - 1], maxRequests, period), maxRequests, period, calls[|calls| - 1])
    ensures var front, last := calls[..|calls| - 1], calls[|calls| - 1];
            && last.at.purge <= last.at.entry
            && |After(Admissions(front, maxRequests, period), last.at.purge - period as real)| < maxRequests
  {
    PurgedHistory(calls, maxRequests, period);
    assert Start(calls[|calls| - 1]) <= End(calls[|calls| - 1]);
  }

  lemma AppendSpaced(a: seq<real>, maxRequests: int, period: int, cutoff: real, entry: real)
    requires Ascending(a) && |After(a, cutoff)| < maxRequests && cutoff + period as real <= entry
    requires Spaced(a, maxRequests, period)
    ensures Spaced(a + [entry], maxRequests, period)
  {
    var k := AfterIsSuffix(a, cutoff);
    NextIsSpaced(a, maxRequests, period, entry, k, cutoff);
  }

  lemma NextIsSpaced(a: seq<real>, maxRequests: int, period: int, entry: real, k: nat, cutoff: real)
    requires maxRequests > 0 && Spaced(a, maxRequests, period) && k <= |a| && |a| - k < maxRequests
    requires forall i :: 0 <= i < k ==> a[i] <= cutoff
    requires cutoff + period as real <= entry
    ensures Spaced(a + [entry], maxRequests, period)
  {
    var b := a + [entry];
    forall i, j | 0 <= i && i + maxRequests <= j < |b|
      ensures b[j] - b[i] >= period as real
    {
      assert b[i] == a[i];
    }
  }

  /** The positions of the admissions in the half-open window (t - period, t]. */
  function Window(a: seq<real>, period: int, t: real): set<nat> {
    set i | 0 <= i < |a| && t - period as real < a[i] <= t
  }

  lemma {:induction false} LeastOf(s: set<nat>) returns (m: nat)
    requires s != {}
    ensures m in s && forall x :: x in s ==> m <= x
    decreases |s|
  {
    m :| m in s;
    if s != {m} {
      var rest := s - {m};
      var n := LeastOf(rest);
      assert forall x :: x in s ==> x == m || x in rest;
      m := if n < m then n else m;
    }
  }

  /** Over any run with a fixed limit and period and a monotone clock, every half-open window
      of one period contains at most `maxRequests` admissions. */
  lemma WindowBound(calls: seq<Call>, maxRequests: int, period: int, t: real)
    requires Monotone(calls)
    ensures |Window(Admissions(calls, maxRequests, period), period, t)| <= Max(0, maxRequests)
  {
    var a := Admissions(calls, maxRequests, period);
    var w := Window(a, period, t);
    if w != {} {
      assert period > 0;
      if maxRequests <= 0 {
        NoneWithoutLimit(calls, maxRequests, period);
      }
      var m := LeastOf(w);
      AdmissionsAscend(calls, maxRequests, period);
      AdmissionsAreSpaced(calls, maxRequests, period);
      forall i | i in w
        ensures m <= i < m + maxRequests
      {
      }
      SubsetSize(w, Range(m, m + maxRequests));
    }
  }

  // ---------------------------------------------------------------- the retry hint

  lemma {:induction false} StoredWithinLimit(calls: seq<Call>, maxRequests: int, period: int)
    requires maxRequests >= 1
    ensures |Stored(calls, maxRequests, period)| <= maxRequests
  {
    if calls != [] {
      StoredWithinLimit(calls[..|calls| - 1], maxRequests, period);
      StepWithinLimit(Stored(calls[..|calls| - 1], maxRequests, period), maxRequests, period, calls[|calls| - 1]);
    }
  }

  lemma StepWithinLimit(times: seq<real>, maxRequests: int, period: int, c: Call)
    requires |times| <= maxRequests
    ensures |Step(times, maxRequests, period, c)| <= maxRequests
  {
    AfterShrinks(times, Start(c) - period as real);
  }

  lemma {:induction false} AfterShrinks(times: seq<real>, cutoff: real)
    ensures |After(times, cutoff)| <= |times|
    ensures times != [] && times[0] <= cutoff ==> |After(times, cutoff)| < |times|
    ensures (forall i :: 0 <= i < |times| ==> times[i] > cutoff) ==> After(times, cutoff) == times
  {
    if times != [] {
      AfterShrinks(times[..|times| - 1], cutoff);
    }
  }

  /** The truncation always points past the expiry of the oldest entry, and by at most a second. */
  lemma RetryAfterBounds(period: int, now: real, oldest: real)
    ensures now + RetryAfter(period, now, oldest) as real > oldest + period as real
    ensures RetryAfter(period, now, oldest) >= 1
    ensures RetryAfter(period, now, oldest) > 1 ==>
              now + (RetryAfter(period, now, oldest) - 1) as real <= oldest + period as real
  {
  }

  /** After a rejection that returned the hint `retryAfter`, a caller that waits that long is
      admitted, provided nothing but budget queries touched the key meanwhile. */
  lemma HonestRetryHint(calls: seq<Call>, at: Reading, maxRequests: int, period: int, retryAfter: int,
                        peeks: seq<Call>, next: Reading)
    requires maxRequests >= 1
    requires Decide(Stored(calls, maxRequests, period), maxRequests, period, at).1 == Denied(retryAfter)
    requires forall i :: 0 <= i < |peeks| ==> peeks[i].Peek?
    requires Monotone(peeks + [Check(next)])
    requires next.purge >= at.entry + retryAfter as real
    ensures Admits(Stored(calls + [Check(at)] + peeks, maxRequests, period), maxRequests, period, Check(next))
  {
    hide Stored, Monotone, RetryAfter;
    StoredWithinLimit(calls, maxRequests, period);
    StoredAfterDenial(calls, at, maxRequests, period);
    PeeksOnlyPurge(calls + [Check(at)], peeks, maxRequests, period, next);
    RoomAfterWaiting(Stored(calls, maxRequests, period), at, maxRequests, period, retryAfter, next.purge);
  }

  lemma StoredAfterDenial(calls: seq<Call>, at: Reading, maxRequests: int, period: int)
    requires Decide(Stored(calls, maxRequests, period), maxRequests, period, at).1.Denied?
    ensures Stored(calls + [Check(at)], maxRequests, period)
                  == After(Stored(calls, maxRequests, period), at.purge - period as real)
  {
    assert (calls + [Check(at)])[..|calls|] == calls;
  }

  lemma RoomAfterWaiting(times: seq<real>, at: Reading, maxRequests: int, period: int, retryAfter: int, later: real)
    requires maxRequests >= 1 && |times| <= maxRequests
    requires Decide(times, maxRequests, period, at).1 == Denied(retryAfter) && later >= at.entry + retryAfter as real
    ensures |After(After(times, at.purge - period as real), later - period as real)| < maxRequests
  {
    var kept := After(times, at.purge - period as real);
    AfterShrinks(times, at.purge - period as real);
    RetryAfterBounds(period, at.entry, kept[0]);
    AfterShrinks(kept, later - period as real);
  }

  /** Budget queries before a request do not change what its own purge leaves. */
  lemma {:induction false} PeeksOnlyPurge(calls: seq<Call>, peeks: seq<Call>, maxRequests: int, period: int,
                                          next: Reading)
    requires forall i :: 0 <= i < |peeks| ==> peeks[i].Peek?
    requires Monotone(peeks + [Check(next)])
    ensures After(Stored(calls + peeks, maxRequests, period), next.purge - period as real)
            == After(Stored(calls, maxRequests, period), next.purge - period as real)
  {
    if peeks == [] {
      assert calls + peeks == calls;
    } else {
      var front, last := peeks[..|peeks| - 1], peeks[|peeks| - 1];
      assert peeks == front + [last];
      FrontMonotone(front, last, next);
      PeeksOnlyPurge(calls, front, maxRequests, period, next);
      assert calls + peeks == (calls + front) + [last];
      PeekThenPurge(calls + front, last, maxRequests, period, next.purge);
    }
  }

  lemma PeekThenPurge(calls: seq<Call>, peek: Call, maxRequests: int, period: int, later: real)
    requires peek.Peek? && peek.now <= later
    ensures After(Stored(calls + [peek], maxRequests, period), later - period as real)
            == After(Stored(calls, maxRequests, period), later - period as real)
  {
    assert (calls + [peek])[..|calls|] == calls;
    AfterTwice(Stored(calls, maxRequests, period), peek.now - period as real, later - period as real);
  }

  lemma FrontMonotone(front: seq<Call>, last: Call, next: Reading)
    requires Monotone(front + [last] + [Check(next)])
    ensures Monotone(front + [Check(next)]) && End(last) <= Start(Check(next))
  {
    var all, some := front + [last] + [Check(next)], front + [Check(next)];
    assert forall i :: 0 <= i < |front| ==> some[i] == all[i];
    assert all[|front|] == last && all[|front| + 1] == Check(next) && some[|front|] == Check(next);
  }

  /** The hint is tight: coming back one whole second before it is always too early. */
  lemma TightRetryHint(times: seq<real>, at: Reading, maxRequests: int, period: int, retryAfter: int, next: Reading)
    requires maxRequests >= 1 && Ascending(times)
    requires Decide(times, maxRequests, period, at).1 == Denied(retryAfter) && retryAfter > 1
    requires next.purge < at.entry + (retryAfter - 1) as real
    ensures var kept := Decide(times, maxRequests, period, at).0;
            Decide(kept, maxRequests, period, next).1.Denied?
  {
    var kept := After(times, at.purge - period as real);
    RetryAfterBounds(period, at.entry, kept[0]);
    assert next.purge - period as real < kept[0];
    forall i | 0 <= i < |kept|
      ensures kept[i] > next.purge - period as real
    {
      KeptFromOldest(times, at.purge - period as real, i);
    }
    AfterShrinks(kept, next.purge - period as real);
  }

  lemma KeptFromOldest(times: seq<real>, cutoff: real, i: nat)
    requires Ascending(times) && i < |After(times, cutoff)|
    ensures After(times, cutoff)[i] >= After(times, cutoff)[0]
  {
    var k := AfterIsSuffix(times, cutoff);
  }

  /** With a positive limit the limiter never fails; with a limit of zero or less it fails on
      every key without recent admissions. */
  lemma CrashesOnlyWithoutLimit(times: seq<real>, maxRequests: int, period: int, at: Reading)
    ensures Decide(times, maxRequests, period, at).1.Crash?
            <==> maxRequests <= 0 && After(times, at.purge - period as real) == []
  {
  }

  lemma {:induction false} NothingStoredWithoutLimit(calls: seq<Call>, maxRequests: int, period: int)
    requires maxRequests <= 0
    ensures Stored(calls, maxRequests, period) == []
  {
    if calls != [] {
      NothingStoredWithoutLimit(calls[..|calls| - 1], maxRequests, period);
    }
  }

  /** After any run with one limit the next request fails with the index error if and only if
      the limit is not positive: such a limit lets no request through, it breaks every one. */
  lemma EveryRequestCrashesWithoutLimit(calls: seq<Call>, maxRequests: int, period: int, at: Reading)
    ensures Decide(Stored(calls, maxRequests, period), maxRequests, period, at).1.Crash? <==> maxRequests <= 0
  {
    CrashesOnlyWithoutLimit(Stored(calls, maxRequests, period), maxRequests, period, at);
    if maxRequests <= 0 {
      NothingStoredWithoutLimit(calls, maxRequests, period);
    }
  }

  // ---------------------------------------------------------------- the Redis limiter

  /** The sorted set of a key: its scores, and the time at which Redis drops the key. */
  datatype ZSet = ZSet(scores: set<real>, expires: real)

  /** An expired key reads as empty; `zremrangebyscore` removes the scores in [0, now - period]. */
  function Remaining(z: ZSet, period: int, now: real): set<real> {
    var scores := if now >= z.expires then {} else z.scores;
    set x | x in scores && !(0.0 <= x <= now - period as real)
  }

  function LeastScore(scores: set<real>): (m: real)
    requires scores != {}
    ensures m in scores && forall x :: x in scores ==> m <= x
  {
    LeastScoreExists(scores);
    var m :| m in scores && forall x :: x in scores ==> m <= x;
    m
  }

  lemma Pick<T>(s: set<T>) returns (x: T)
    requires s != {}
    ensures x in s
  {
    x :| x in s;
  }

  lemma {:induction false} LeastScoreExists(scores: set<real>)
    requires scores != {}
    ensures exists m :: m in scores && forall x :: x in scores ==> m <= x
    decreases |scores|
  {
    var m := Pick(scores);
    var rest := scores - {m};
    if rest == {} {
      assert scores == {m};
    } else {
      LeastScoreExists(rest);
      var n :| n in rest && forall x :: x in rest ==> n <= x;
      var least := if n < m then n else m;
      assert forall x :: x in scores ==> x == m || x in rest;
      assert least in scores && forall x :: x in scores ==> least <= x;
    }
  }

  /** `is_allowed` of the Redis limiter: the request is recorded before the count is judged. */
  function RedisDecide(z: ZSet, maxRequests: int, period: int, now: real): (ZSet, Verdict) {
    var kept := Remaining(z, period, now);
    var after := kept + {now};
    var verdict := if |kept| >= maxRequests then Denied(RetryAfter(period, now, LeastScore(after)))
                   else Allowed(maxRequests - |kept| - 1);
    (ZSet(after, now + period as real), verdict)
  }

  /** The Redis side: one sorted set per key, updated by the four commands of the pipeline. */
  class RedisRateLimiter {
    var sets: map<string, ZSet>

    constructor ()
      ensures sets == map[]
    {
      sets := map[];
    }

    function SetOf(key: string): ZSet
      reads this
    {
      if key in sets then sets[key] else ZSet({}, 0.0)
    }

    method IsAllowed(key: string, maxRequests: int, period: int, now: real) returns (verdict: Verdict)
      modifies this
      ensures (SetOf(key), verdict) == RedisDecide(old(SetOf(key)), maxRequests, period, now)
      ensures forall other :: other != key ==> SetOf(other) == old(SetOf(other))
    {
      var kept := Remaining(SetOf(key), period, now);
      var count := |kept|;
      sets := sets[key := ZSet(kept + {now}, now + period as real)];
      if count >= maxRequests {
        return Denied(RetryAfter(period, now, LeastScore(sets[key].scores)));
      }
      verdict := Allowed(maxRequests - count - 1);
    }
  }

  /** The sorted set after requests at `times`, for a key unknown at the start. */
  function RedisState(times: seq<real>, maxRequests: int, period: int): ZSet {
    if times == [] then ZSet({}, 0.0)
    else RedisDecide(RedisState(times[..|times| - 1], maxRequests, period), maxRequests, period, times[|times| - 1]).0
  }

  predicate RedisAdmits(times: seq<real>, maxRequests: int, period: int, now: real) {
    RedisDecide(RedisState(times, maxRequests, period), maxRequests, period, now).1.Allowed?
  }

  /** A trace of requests at distinct, non-negative, increasing times. */
  ghost predicate Trace(times: seq<real>) {
    && (forall i :: 0 <= i < |times| ==> 0.0 <= times[i])
    && (forall i, j :: 0 <= i < j < |times| ==> times[i] < times[j])
  }

  function Recent(times: seq<real>, cutoff: real): set<real> {
    set x | x in times && x > cutoff
  }

  lemma TraceFront(front: seq<real>, last: real)
    requires Trace(front + [last])
    ensures Trace(front) && 0.0 <= last && forall x :: x in front ==> 0.0 <= x && x < last
    ensures forall x :: x in front + [last] <==> x in front || x == last
  {
    var times := front + [last];
    assert times[|front|] == last;
    assert forall i :: 0 <= i < |front| ==> front[i] == times[i];
  }

  /** What Redis counts at `now`: every request of the last period, rejected ones included. */
  lemma {:induction false} RedisCountsAllRequests(times: seq<real>, maxRequests: int, period: int, now: real)
    requires Trace(times + [now]) && period > 0
    ensures Remaining(RedisState(times, maxRequests, period), period, now) == Recent(times, now - period as real)
  {
    TraceFront(times, now);
    if times != [] {
      var front, last := times[..|times| - 1], times[|times| - 1];
      assert times == front + [last];
      TraceFront(front, last);
      RedisCountsAllRequests(front, maxRequests, period, last);
      assert last in times;
      RedisPurge(front, last, period, now);
    }
  }

  lemma RedisPurge(front: seq<real>, last: real, period: int, now: real)
    requires (forall x :: x in front ==> 0.0 <= x && x < last) && 0.0 <= last < now && period > 0
    ensures Remaining(ZSet(Recent(front, last - period as real) + {last}, last + period as real), period, now)
            == Recent(front + [last], now - period as real)
  {
    var left := Remaining(ZSet(Recent(front, last - period as real) + {last}, last + period as real), period, now);
    var right := Recent(front + [last], now - period as real);
    assert forall x :: x in front + [last] <==> x in front || x == last;
    assert forall x :: x in left <==> x in right;
  }

  /** Redis admits a request if and only if fewer than `maxRequests` requests, admitted or not,
      arrived within the last period. */
  lemma RedisAdmission(times: seq<real>, maxRequests: int, period: int, now: real)
    requires Trace(times + [now]) && period > 0
    ensures RedisAdmits(times, maxRequests, period, now) <==> |Recent(times, now - period as real)| < maxRequests
  {
    RedisCountsAllRequests(times, maxRequests, period, now);
  }

  /** So its retry hint is not honest: with one request per ten seconds, a request after one
      second is followed by a rejection with a hint of six seconds, and the client that waits
      those six seconds is rejected again. */
  lemma RedisHintCanLie()
    ensures RedisAdmits([], 1, 10, 1.0)
    ensures RedisDecide(RedisState([1.0], 1, 10), 1, 10, 6.0).1 == Denied(6)
    ensures !RedisAdmits([1.0, 6.0], 1, 10, 12.0)
  {
    RedisFirst();
    RedisSecond();
    RedisThird();
  }

  lemma RedisFirst()
    ensures RedisAdmits([], 1, 10, 1.0)
  {
    assert Trace([] + [1.0]);
    RedisAdmission([], 1, 10, 1.0);
    assert Recent([], -9.0) == {};
  }

  lemma RedisSecond()
    ensures RedisDecide(RedisState([1.0], 1, 10), 1, 10, 6.0).1 == Denied(6)
  {
    assert Trace([1.0] + [6.0]);
    RedisCountsAllRequests([1.0], 1, 10, 6.0);
    assert Recent([1.0], -4.0) == {1.0};
    assert LeastScore({1.0} + {6.0}) == 1.0;
    assert RetryAfter(10, 6.0, 1.0) == 6;
  }

  lemma RedisThird()
    ensures !RedisAdmits([1.0, 6.0], 1, 10, 12.0)
  {
    assert Trace([1.0, 6.0] + [12.0]);
    RedisAdmission([1.0, 6.0], 1, 10, 12.0);
    assert [1.0, 6.0][1] == 6.0;
    assert 6.0 in Recent([1.0, 6.0], 2.0);
  }

  // ---------------------------------------------------------------- comparing the two

  /** The same trace as seen by the in-memory limiter, with one clock reading per request. */
  function Checks(times: seq<real>): (calls: seq<Call>)
    ensures |calls| == |times| && forall i :: 0 <= i < |times| ==> calls[i] == Check(Reading(times[i], times[i]))
  {
    seq(|times|, i requires 0 <= i < |times| => Check(Reading(times[i], times[i])))
  }

  predicate MemoryAdmits(times: seq<real>, maxRequests: int, period: int, now: real) {
    Admits(Stored(Checks(times), maxRequests, period), maxRequests, period, Check(Reading(now, now)))
  }

  /** The in-memory limiter admits exactly below the limit of admissions in the last period;
      compare `RedisAdmission`, which counts requests. */
  lemma MemoryAdmission(times: seq<real>, maxRequests: int, period: int, now: real)
    requires Trace(times + [now]) && period > 0
    ensures MemoryAdmits(times, maxRequests, period, now) <==>
            |After(Admissions(Checks(times), maxRequests, period), now - period as real)| < maxRequests
  {
    TraceFront(times, now);
    var front, next := Checks(times), Check(Reading(now, now));
    var calls := front + [next];
    assert calls[..|calls| - 1] == front && calls[|calls| - 1] == next;
    assert Monotone(calls) by {
      hide Admissions, After, Stored;
      var all := times + [now];
      assert forall i :: 0 <= i < |all| ==> calls[i] == Check(Reading(all[i], all[i]));
    }
    hide Admissions, Stored, Monotone;
    PurgedHistory(calls, maxRequests, period);
  }

  ghost predicate StrictlyAscending(times: seq<real>) {
    forall i, j :: 0 <= i < j < |times| ==> times[i] < times[j]
  }

  /** The in-memory limiter stores request times of the trace, each once. */
  lemma {:induction false} StoredAreRequests(times: seq<real>, maxRequests: int, period: int)
    requires Trace(times)
    ensures var stored := Stored(Checks(times), maxRequests, period);
            StrictlyAscending(stored) && forall x :: x in stored ==> x in times
  {
    if times != [] {
      var front, last := times[..|times| - 1], times[|times| - 1];
      assert times == front + [last];
      TraceFront(front, last);
      StoredAreRequests(front, maxRequests, period);
      assert Checks(times)[..|times| - 1] == Checks(front);
      DecideKeepsAscent(Stored(Checks(front), maxRequests, period), maxRequests, period, last);
    }
  }

  lemma DecideKeepsAscent(stored: seq<real>, maxRequests: int, period: int, now: real)
    requires StrictlyAscending(stored) && forall x :: x in stored ==> x < now
    ensures var next := Decide(stored, maxRequests, period, Reading(now, now)).0;
            StrictlyAscending(next) && forall x :: x in next ==> x in stored || x == now
  {
    var kept := After(stored, now - period as real);
    FilterKeepsAscent(stored, now - period as real);
    assert forall i :: 0 <= i < |kept| ==> kept[i] in kept;
  }

  lemma {:induction false} FilterKeepsAscent(times: seq<real>, cutoff: real)
    requires StrictlyAscending(times)
    ensures StrictlyAscending(After(times, cutoff))
    ensures forall x :: x in After(times, cutoff) <==> x in times && x > cutoff
  {
    if times != [] {
      var front, last := times[..|times| - 1], times[|times| - 1];
      FilterKeepsAscent(front, cutoff);
      assert times == front + [last];
      var kept := After(front, cutoff);
      assert forall i :: 0 <= i < |kept| ==> kept[i] in kept;
      assert forall x :: x in front ==> x < last;
    }
  }

  lemma {:induction false} AscendingSize(times: seq<real>)
    requires StrictlyAscending(times)
    ensures |set x | x in times| == |times|
  {
    if times != [] {
      var front, last := times[..|times| - 1], times[|times| - 1];
      AscendingSize(front);
      assert times == front + [last];
      assert (set x | x in times) == (set x | x in front) + {last};
    }
  }

  /** On any trace of distinct times, every request the Redis limiter admits is also admitted
      by the in-memory limiter: Redis counts a superset. */
  lemma RedisAdmitsLess(times: seq<real>, maxRequests: int, period: int, now: real)
    requires Trace(times + [now]) && period > 0
    requires RedisAdmits(times, maxRequests, period, now)
    ensures MemoryAdmits(times, maxRequests, period, now)
  {
    RedisAdmission(times, maxRequests, period, now);
    FewRecentAreAdmitted(times, maxRequests, period, now);
  }

  lemma FewRecentAreAdmitted(times: seq<real>, maxRequests: int, period: int, now: real)
    requires Trace(times + [now]) && |Recent(times, now - period as real)| < maxRequests
    ensures MemoryAdmits(times, maxRequests, period, now)
  {
    TraceFront(times, now);
    StoredAreRequests(times, maxRequests, period);
    KeptAdmit(Stored(Checks(times), maxRequests, period), times, maxRequests, period, now);
  }

  lemma KeptAdmit(stored: seq<real>, times: seq<real>, maxRequests: int, period: int, now: real)
    requires StrictlyAscending(stored) && forall x :: x in stored ==> x in times
    requires |Recent(times, now - period as real)| < maxRequests
    ensures Admits(stored, maxRequests, period, Check(Reading(now, now)))
  {
    KeptAreRecent(stored, times, now - period as real);
  }

  lemma KeptAreRecent(stored: seq<real>, times: seq<real>, cutoff: real)
    requires StrictlyAscending(stored) && forall x :: x in stored ==> x in times
    ensures |After(stored, cutoff)| <= |Recent(times, cutoff)|
  {
    FilterKeepsAscent(stored, cutoff);
    AscendingSize(After(stored, cutoff));
    SubsetSize((set x | x in After(stored, cutoff)), Recent(times, cutoff));
  }

  /** The inclusion is strict: after a rejection the in-memory limiter can admit a request that
      Redis still rejects. */
  lemma MemoryAdmitsMore()
    ensures MemoryAdmits([1.0, 6.0], 1, 10, 12.0) && !RedisAdmits([1.0, 6.0], 1, 10, 12.0)
  {
    RedisHintCanLie();
    var c1, c2 := Check(Reading(1.0, 1.0)), Check(Reading(6.0, 6.0));
    assert Checks([1.0, 6.0]) == [c1, c2];
    assert [c1, c2][..1] == [c1] && [c1][..0] == [];
    assert Stored([c1], 1, 10) == [1.0];
    assert [1.0][..0] == [];
    assert After([1.0], -4.0) == [1.0];
    assert Stored([c1, c2], 1, 10) == [1.0];
    assert After([1.0], 2.0) == [];
  }

  // ---------------------------------------------------------------- the configured limits

  datatype Settings = Settings(requests: int, period: int, adminRequests: int, adminPeriod: int)

  const ADMIN_ENDPOINTS := {"admin_audit", "admin_fix", "admin_reconcile", "admin_status_override", "admin_users"}
  const INTENSIVE_ENDPOINTS := {"vm_logs", "vm_create", "network_create"}

  /** The limit and period `check_rate_limit` passes on for an endpoint. */
  function SelectLimit(settings: Settings, endpoint: string): (int, int) {
    if endpoint in ADMIN_ENDPOINTS then (settings.adminRequests, settings.adminPeriod)
    else if endpoint in INTENSIVE_ENDPOINTS then (Max(1, settings.requests / 2), settings.period)
    else (settings.requests, settings.period)
  }

  lemma EndpointsApart(endpoint: string)
    ensures endpoint in INTENSIVE_ENDPOINTS ==> endpoint !in ADMIN_ENDPOINTS
  {
    assert "vm_logs"[0] == 'v' && "vm_create"[0] == 'v' && "network_create"[0] == 'n';
    assert forall e :: e in ADMIN_ENDPOINTS ==> e[0] == 'a';
  }

  /** What an endpoint admits in any window of its period: an admin endpoint the admin setting, an
      intensive one half the general setting but at least one, and any other the general one. */
  lemma EndpointBound(settings: Settings, endpoint: string, calls: seq<Call>, t: real)
    requires Monotone(calls)
    ensures var (maxRequests, period) := SelectLimit(settings, endpoint);
            var admitted := Admissions(calls, maxRequests, period);
            && (endpoint in ADMIN_ENDPOINTS ==>
                  |Window(admitted, settings.adminPeriod, t)| <= Max(0, settings.adminRequests))
            && (endpoint in INTENSIVE_ENDPOINTS ==>
                  2 * |Window(admitted, settings.period, t)| <= Max(2, settings.requests))
            && (endpoint !in ADMIN_ENDPOINTS + INTENSIVE_ENDPOINTS ==>
                  |Window(admitted, settings.period, t)| <= Max(0, settings.requests))
  {
    EndpointsApart(endpoint);
    var (maxRequests, period) := SelectLimit(settings, endpoint);
    WindowBound(calls, maxRequests, period, t);
  }

  lemma {:induction false} StoredGrowsByOne(calls: seq<Call>, maxRequests: int, period: int)
    ensures |Stored(calls, maxRequests, period)| <= |calls|
  {
    hide Step;
    if calls != [] {
      var last := |calls| - 1;
      StoredGrowsByOne(calls[..last], maxRequests, period);
      StepGrowsByOne(Stored(calls[..last], maxRequests, period), maxRequests, period, calls[last]);
    }
  }

  lemma StepGrowsByOne(times: seq<real>, maxRequests: int, period: int, c: Call)
    ensures |Step(times, maxRequests, period, c)| <= |times| + 1
  {
    AfterShrinks(times, Start(c) - period as real);
  }

  /** On a fresh key at least that many requests are admitted, whenever they come. */
  lemma EndpointAdmitsItsLimit(settings: Settings, endpoint: string, calls: seq<Call>, at: Reading)
    requires endpoint in ADMIN_ENDPOINTS ==> |calls| < settings.adminRequests
    requires endpoint in INTENSIVE_ENDPOINTS ==> 2 * |calls| + 2 <= Max(2, settings.requests)
    requires endpoint !in ADMIN_ENDPOINTS + INTENSIVE_ENDPOINTS ==> |calls| < settings.requests
    ensures var (maxRequests, period) := SelectLimit(settings, endpoint);
            Admits(Stored(calls, maxRequests, period), maxRequests, period, Check(at))
  {
    hide Stored, Admits;
    EndpointsApart(endpoint);
    var (maxRequests, period) := SelectLimit(settings, endpoint);
    FewCallsAdmit(calls, maxRequests, period, at);
  }

  lemma FewCallsAdmit(calls: seq<Call>, maxRequests: int, period: int, at: Reading)
    requires |calls| < maxRequests
    ensures Admits(Stored(calls, maxRequests, period), maxRequests, period, Check(at))
  {
    StoredGrowsByOne(calls, maxRequests, period);
    AfterShrinks(Stored(calls, maxRequests, period), at.purge - period as real);
  }

  /** The endpoints of each kind. */
  lemma EndpointKinds(settings: Settings)
    ensures forall e :: e in ["admin_audit", "admin_fix", "admin_reconcile", "admin_status_override", "admin_users"] ==>
              SelectLimit(settings, e) == (settings.adminRequests, settings.adminPeriod)
    ensures forall e :: e in ["vm_logs", "vm_create", "network_create"] ==>
              SelectLimit(settings, e) == (if settings.requests < 4 then 1 else settings.requests / 2, settings.period)
    ensures forall e :: e in ["default", "login", "register", "network_delete"] ==>
              SelectLimit(settings, e) == (settings.requests, settings.period)
  {
    EndpointsApart("vm_logs");
    EndpointsApart("vm_create");
    EndpointsApart("network_create");
    assert "default"[0] == 'd' && "login"[0] == 'l' && "register"[0] == 'r' && "network_delete"[8] == 'd';
    assert forall e :: e in ADMIN_ENDPOINTS ==> e[0] == 'a';
    assert forall e :: e in INTENSIVE_ENDPOINTS ==> e[0] in {'v', 'n'};
    assert "network_create"[8] == 'c';
  }

  /** After any run of an endpoint's requests with its selected limit, the next one fails if and
      only if the setting the endpoint reads is not positive; the intensive endpoints read a
      clamped one and never fail. */
  lemma WhenEndpointCrashes(settings: Settings, endpoint: string, calls: seq<Call>, at: Reading)
    ensures var (maxRequests, period) := SelectLimit(settings, endpoint);
            Decide(Stored(calls, maxRequests, period), maxRequests, period, at).1.Crash?
            <==> if endpoint in ADMIN_ENDPOINTS then settings.adminRequests <= 0
                 else endpoint !in INTENSIVE_ENDPOINTS && settings.requests <= 0
  {
    EndpointsApart(endpoint);
    var (maxRequests, period) := SelectLimit(settings, endpoint);
    EveryRequestCrashesWithoutLimit(calls, maxRequests, period, at);
  }
}
