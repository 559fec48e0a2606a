/** When the retry hint of the Redis limiter is honest. A rejected request is counted like an
    admitted one, so waiting for the oldest to expire need not be enough. */
module RedisHint {
  import opened Sets
  import opened RateLimit

  /** The request times Redis holds right after the one at `now`. */
  function Counted(times: seq<real>, period: int, now: real): set<real> {
    Recent(times, now - period as real) + {now}
  }

  /** Those that no longer count at `next`. */
  function Expired(counted: set<real>, period: int, next: real): set<real> {
    set x | x in counted && x <= next - period as real
  }

  /** The request at `now` is rejected with the hint. */
  predicate Rejected(times: seq<real>, maxRequests: int, period: int, now: real, hint: int) {
    RedisDecide(RedisState(times, maxRequests, period), maxRequests, period, now).1 == Denied(hint)
  }

  lemma HintOf(times: seq<real>, maxRequests: int, period: int, now: real, hint: int)
    requires Trace(times + [now]) && period > 0 && Rejected(times, maxRequests, period, now, hint)
    ensures |Counted(times, period, now)| > maxRequests
    ensures hint == RetryAfter(period, now, LeastScore(Counted(times, period, now)))
  {
    RedisCountsAllRequests(times, maxRequests, period, now);
    TraceFront(times, now);
    var kept := Recent(times, now - period as real);
    assert now !in kept;
    assert |kept + {now}| == |kept| + 1;
  }

  /** The hint ends after the oldest counted request expires, and by at most a second. */
  lemma HintBounds(times: seq<real>, maxRequests: int, period: int, now: real, hint: int)
    requires Trace(times + [now]) && period > 0 && Rejected(times, maxRequests, period, now, hint)
    ensures var oldest := LeastScore(Counted(times, period, now));
            hint >= 1 && oldest < now + hint as real - period as real <= oldest + 1.0
  {
    HintOf(times, maxRequests, period, now, hint);
    var oldest := LeastScore(Counted(times, period, now));
    var left := period as real - (now - oldest);
    TraceFront(times, now);
    assert oldest <= now && left > 0.0;
    assert left.Floor as real <= left < left.Floor as real + 1.0;
  }

  lemma TraceLater(times: seq<real>, now: real, next: real)
    requires Trace(times + [now]) && now < next
    ensures Trace((times + [now]) + [next])
  {
    var all := times + [now];
    TraceFront(times, now);
    forall i, j | 0 <= i < j < |all + [next]|
      ensures (all + [next])[i] < (all + [next])[j]
    {
      if j == |all| {
        assert all[i] in all;
      }
    }
  }

  lemma LeftLater(times: seq<real>, period: int, now: real, next: real)
    requires Trace(times + [now]) && now <= next && period > 0
    ensures Recent(times + [now], next - period as real)
            == Counted(times, period, now) - Expired(Counted(times, period, now), period, next)
    ensures |Recent(times + [now], next - period as real)|
            == |Counted(times, period, now)| - |Expired(Counted(times, period, now), period, next)|
  {
    TraceFront(times, now);
    var counted, expired := Counted(times, period, now), Expired(Counted(times, period, now), period, next);
    assert Recent(times + [now], next - period as real) == counted - expired;
    assert expired <= counted;
    assert |counted - expired| == |counted| - |expired|;
  }

  /** After a request at `now`, admitted or rejected, a later one is admitted if and only if
      more of the counted requests have expired by then than their number exceeds the limit. */
  lemma AdmittedAfterRejection(times: seq<real>, maxRequests: int, period: int, now: real, next: real)
    requires Trace(times + [now]) && now < next && period > 0
    ensures RedisAdmits(times + [now], maxRequests, period, next)
            <==> |Recent(times + [now], next - period as real)| < maxRequests
    ensures var counted := Counted(times, period, now);
            RedisAdmits(times + [now], maxRequests, period, next)
            <==> |Expired(counted, period, next)| > |counted| - maxRequests
  {
    TraceLater(times, now, next);
    RedisAdmission(times + [now], maxRequests, period, next);
    LeftLater(times, period, now, next);
  }

  /** The hint is honest if and only if enough requests expire together with the oldest one, and
      those are requests made within a second of it. */
  lemma HintIsHonest(times: seq<real>, maxRequests: int, period: int, now: real, hint: int)
    requires Trace(times + [now]) && period > 0 && Rejected(times, maxRequests, period, now, hint)
    ensures var counted := Counted(times, period, now);
            var expired := Expired(counted, period, now + hint as real);
            && (RedisAdmits(times + [now], maxRequests, period, now + hint as real)
                <==> |expired| > |counted| - maxRequests)
            && LeastScore(counted) in expired
            && forall x :: x in expired ==> x <= LeastScore(counted) + 1.0
  {
    HintBounds(times, maxRequests, period, now, hint);
    AdmittedAfterRejection(times, maxRequests, period, now, now + hint as real);
  }

  /** Once the hint is honest, so is every longer wait. */
  lemma LongerWaitIsHonest(times: seq<real>, maxRequests: int, period: int, now: real, next: real, later: real)
    requires Trace(times + [now]) && now < next <= later && period > 0
    requires RedisAdmits(times + [now], maxRequests, period, next)
    ensures RedisAdmits(times + [now], maxRequests, period, later)
  {
    AdmittedAfterRejection(times, maxRequests, period, now, next);
    AdmittedAfterRejection(times, maxRequests, period, now, later);
    var counted := Counted(times, period, now);
    SubsetSize(Expired(counted, period, next), Expired(counted, period, later));
  }

  /** With a limit of one the rejected request itself stands in the way: the hint is honest if
      and only if it spans the whole period, which is when the oldest request is at most one
      second old. */
  lemma SingleRequestHint(times: seq<real>, period: int, now: real, hint: int)
    requires Trace(times + [now]) && period > 0 && Rejected(times, 1, period, now, hint)
    ensures RedisAdmits(times + [now], 1, period, now + hint as real) <==> hint >= period
    ensures hint >= period <==> now - LeastScore(Counted(times, period, now)) <= 1.0
  {
    HintIsHonest(times, 1, period, now, hint);
    HintOf(times, 1, period, now, hint);
    TraceFront(times, now);
    var counted := Counted(times, period, now);
    var expired := Expired(counted, period, now + hint as real);
    if hint >= period {
      assert expired == counted;
    } else {
      assert now in counted && now !in expired;
      SubsetSize(expired, counted - {now});
    }
    SpansPeriod(period, now, LeastScore(counted));
  }

  lemma SpansPeriod(period: int, now: real, oldest: real)
    requires period > 0 && now - period as real < oldest <= now
    ensures RetryAfter(period, now, oldest) >= period <==> now - oldest <= 1.0
  {
    var left := period as real - (now - oldest);
    assert left.Floor as real <= left < left.Floor as real + 1.0;
    if now - oldest <= 1.0 {
      assert left >= (period - 1) as real;
      assert left.Floor >= period - 1;
    } else {
      assert left < (period - 1) as real;
      assert left.Floor < period - 1;
    }
  }
}
