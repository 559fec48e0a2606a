/** What the in-memory limiter's answer about the remaining budget is worth. */
module RateBudget {
  import opened RateLimit

  /** `get_remaining` on the purged list. */
  function Budget(kept: seq<real>, maxRequests: int): int {
    Max(0, maxRequests - |kept|)
  }

  /** The list after some requests in a row. */
  function AfterRequests(times: seq<real>, maxRequests: int, period: int, requests: seq<Reading>): seq<real> {
    if requests == [] then times
    else
      var last := |requests| - 1;
      Decide(AfterRequests(times, maxRequests, period, requests[..last]), maxRequests, period, requests[last]).0
  }

  predicate NextAllowed(times: seq<real>, maxRequests: int, period: int, requests: seq<Reading>)
    requires requests != []
  {
    var last := |requests| - 1;
    Decide(AfterRequests(times, maxRequests, period, requests[..last]), maxRequests, period, requests[last]).1.Allowed?
  }

  lemma {:induction false} AfterIsShorter(times: seq<real>, cutoff: real)
    ensures |After(times, cutoff)| <= |times|
  {
    if times != [] {
      AfterIsShorter(times[..|times| - 1], cutoff);
    }
  }

  lemma {:induction false} OneMoreEach(times: seq<real>, maxRequests: int, period: int, requests: seq<Reading>)
    ensures |AfterRequests(times, maxRequests, period, requests)| <= |times| + |requests|
  {
    if requests != [] {
      var last := |requests| - 1;
      OneMoreEach(times, maxRequests, period, requests[..last]);
      AfterIsShorter(AfterRequests(times, maxRequests, period, requests[..last]),
                     requests[last].purge - period as real);
    }
  }

  lemma OneAdmitted(times: seq<real>, maxRequests: int, period: int, at: Reading)
    requires period > 0 && After(times, at.purge - period as real) == times
    requires at.purge <= at.entry && |times| < maxRequests
    ensures var next := Decide(times, maxRequests, period, at).0;
            |next| == |times| + 1 && After(next, at.purge - period as real) == next
  {
    AfterAppend(times, at.entry, at.purge - period as real);
  }

  lemma OneRefused(times: seq<real>, maxRequests: int, period: int, at: Reading)
    requires After(times, at.purge - period as real) == times && |times| >= maxRequests
    ensures !Decide(times, maxRequests, period, at).1.Allowed?
  {
  }

  /** While nothing expires the list grows by each request up to the budget. */
  lemma {:induction false} NothingExpires(kept: seq<real>, maxRequests: int, period: int, now: real,
                                          requests: seq<Reading>)
    requires period > 0 && After(kept, now - period as real) == kept
    requires forall i :: 0 <= i < |requests| ==> requests[i].purge == now <= requests[i].entry
    requires |requests| <= Budget(kept, maxRequests)
    ensures var times := AfterRequests(kept, maxRequests, period, requests);
            |times| == |kept| + |requests| && After(times, now - period as real) == times
  {
    hide After, Decide;
    if requests != [] {
      var last := |requests| - 1;
      NothingExpires(kept, maxRequests, period, now, requests[..last]);
      OneAdmitted(AfterRequests(kept, maxRequests, period, requests[..last]), maxRequests, period, requests[last]);
    }
  }

  /** The answer is honest: as many further requests are admitted, whenever they come. */
  lemma BudgetIsGranted(times: seq<real>, maxRequests: int, period: int, now: real, requests: seq<Reading>)
    requires requests != [] && |requests| <= Budget(After(times, now - period as real), maxRequests)
    ensures NextAllowed(After(times, now - period as real), maxRequests, period, requests)
  {
    var kept, last := After(times, now - period as real), |requests| - 1;
    OneMoreEach(kept, maxRequests, period, requests[..last]);
    AfterIsShorter(AfterRequests(kept, maxRequests, period, requests[..last]), requests[last].purge - period as real);
  }

  /** And no more than that: when they come before anything expires, the next one is refused. */
  lemma BudgetRunsOut(times: seq<real>, maxRequests: int, period: int, now: real, requests: seq<Reading>)
    requires period > 0 && |requests| == Budget(After(times, now - period as real), maxRequests) + 1
    requires forall i :: 0 <= i < |requests| ==> requests[i].purge == now <= requests[i].entry
    ensures !NextAllowed(After(times, now - period as real), maxRequests, period, requests)
  {
    var kept, last, cutoff := After(times, now - period as real), |requests| - 1, now - period as real;
    AfterTwice(times, cutoff, cutoff);
    hide After, AfterRequests, Decide, Max;
    NothingExpires(kept, maxRequests, period, now, requests[..last]);
    OneRefused(AfterRequests(kept, maxRequests, period, requests[..last]), maxRequests, period, requests[last]);
  }
}
