/** How far the rate-limit headers can be trusted: `X-RateLimit-Remaining`, `X-RateLimit-Reset` and
    the constant `Retry-After: 60` (section 10.2.3 of RFC 9110) of a 429 answer (section 4 of RFC 6585). */
module RateHeaders {
  import opened SlidingWindow

  lemma {:induction false} WithinBounds(times: seq<int>, lo: int, hi: int)
    ensures forall i :: 0 <= i < |Within(times, lo, hi)| ==> lo <= Within(times, lo, hi)[i] <= hi
  {
    if times != [] {
      WithinBounds(times[..|times| - 1], lo, hi);
    }
  }

  lemma WithinAppend(times: seq<int>, t: int, lo: int, hi: int)
    ensures Within(times + [t], lo, hi) == Within(times, lo, hi) + if lo <= t <= hi then [t] else []
  {
    assert (times + [t])[..|times|] == times;
  }

  /** The advertised instant, in nanoseconds of the wall clock, lies less than a second before the answer
      and at most sixty seconds after it. It lies before the answer exactly when it names the current
      second and that second has begun. */
  lemma ResetWithinAMinute(limits: Limits, log: seq<Admission>, call: Call)
    requires limits.Rpm(call.scope) > 0
    ensures var v := NaiveVerdict(limits, log, call);
            && !v.Unlimited?
            && call.wall - NANOS_PER_SEC < v.info.reset * NANOS_PER_SEC <= call.wall + WINDOW
            && Unix(call.wall) <= v.info.reset
            && (v.info.reset * NANOS_PER_SEC < call.wall <==>
                  v.info.reset == Unix(call.wall) && call.wall % NANOS_PER_SEC > 0)
  {
    WithinBounds(TimesOf(log, call.scope), call.now - WINDOW, call.now);
    WholeSeconds(call.wall, NaiveVerdict(limits, log, call).info.reset - Unix(call.wall));
  }

  lemma WholeSeconds(wall: nat, offset: nat)
    ensures var reset := Unix(wall) + offset;
            && reset * NANOS_PER_SEC == wall - wall % NANOS_PER_SEC + offset * NANOS_PER_SEC
            && (reset * NANOS_PER_SEC < wall <==> offset == 0 && wall % NANOS_PER_SEC > 0)
  {
  }

  /** The limit that applies: that of all requests together, or that of one key. */
  function LimitOf(limits: Limits, scope: Scope): nat {
    match scope
    case Global => limits.globalRpm
    case Key(_) => limits.perKeyRpm
  }

  /** What an answer says. Without a limit there are no headers. With one, the call is admitted exactly if
      fewer than the limit were admitted in the sixty seconds up to it; the headers name the limit and how
      many calls are left of it, none after a rejection. */
  lemma VerdictMeans(limits: Limits, log: seq<Admission>, call: Call)
    ensures var v, n, limit := NaiveVerdict(limits, log, call), |Recent(log, call.scope, call.now)|, LimitOf(limits, call.scope);
            && (v.Unlimited? <==> limit == 0)
            && (v.Admitted? <==> limit > 0 && n < limit)
            && (v.Rejected? <==> limit > 0 && n >= limit)
            && (v.Admitted? ==> v.info.limit == limit && v.info.remaining + n + 1 == limit)
            && (v.Rejected? ==> v.info.limit == limit && v.info.remaining == 0)
            && NaiveLog(limits, log, call) == log + if v.Admitted? then [Admission(call.scope, call.now)] else []
  {
  }

  /** The reset names the second in which the first admission now counted, the call itself included if it
      was admitted, leaves the window. */
  lemma ResetMeans(limits: Limits, log: seq<Admission>, call: Call)
    requires LimitOf(limits, call.scope) > 0
    ensures var v, recent := NaiveVerdict(limits, log, call), Recent(NaiveLog(limits, log, call), call.scope, call.now);
            && !v.Unlimited? && recent != [] && Unix(call.wall) <= v.info.reset
            && var seconds := v.info.reset - Unix(call.wall);
               call.now + seconds * NANOS_PER_SEC <= recent[0] + WINDOW < call.now + (seconds + 1) * NANOS_PER_SEC
  {
    TimesOfAppend(log, Admission(call.scope, call.now), call.scope);
    WithinAppend(TimesOf(log, call.scope), call.now, call.now - WINDOW, call.now);
    WithinBounds(TimesOf(log, call.scope), call.now - WINDOW, call.now);
  }

  /** In every run that first admission is the oldest one of the sixty seconds up to the call. */
  lemma FirstIsOldest(limits: Limits, calls: seq<Call>, scope: Scope, now: int, k: nat)
    requires Monotone(calls) && LimitOf(limits, scope) > 0
    requires k < |Recent(LogAfter(limits, [], calls), scope, now)|
    ensures Recent(LogAfter(limits, [], calls), scope, now)[0] <= Recent(LogAfter(limits, [], calls), scope, now)[k]
  {
    RunKeepsLogOk(limits, calls);
    assert WithinLimit(TimesOf(LogAfter(limits, [], calls), scope), limits.Rpm(scope));
    WithinSorted(TimesOf(LogAfter(limits, [], calls), scope), now - WINDOW, now);
  }

  /** The log after the same call has been made `n` times at one instant. */
  function Burst(limits: Limits, log: seq<Admission>, call: Call, n: nat): seq<Admission> {
    if n == 0 then log else NaiveLog(limits, Burst(limits, log, call, n - 1), call)
  }

  /** A call is admitted exactly when fewer than the limit are recent, and then counts as one more. */
  lemma CallCounts(limits: Limits, log: seq<Admission>, call: Call)
    requires limits.Rpm(call.scope) > 0
    ensures NaiveVerdict(limits, log, call).Admitted? <==> |Recent(log, call.scope, call.now)| < limits.Rpm(call.scope)
    ensures NaiveVerdict(limits, log, call).Rejected? <==> |Recent(log, call.scope, call.now)| >= limits.Rpm(call.scope)
    ensures |Recent(NaiveLog(limits, log, call), call.scope, call.now)|
         == |Recent(log, call.scope, call.now)| + if NaiveVerdict(limits, log, call).Admitted? then 1 else 0
  {
    TimesOfAppend(log, Admission(call.scope, call.now), call.scope);
    WithinAppend(TimesOf(log, call.scope), call.now, call.now - WINDOW, call.now);
  }

  lemma {:induction false} BurstFills(limits: Limits, log: seq<Admission>, call: Call, n: nat)
    requires limits.Rpm(call.scope) > 0 && |Recent(log, call.scope, call.now)| <= limits.Rpm(call.scope)
    ensures var full := |Recent(log, call.scope, call.now)| + n;
            |Recent(Burst(limits, log, call, n), call.scope, call.now)|
            == if full <= limits.Rpm(call.scope) then full else limits.Rpm(call.scope)
  {
    if n > 0 {
      BurstFills(limits, log, call, n - 1);
      CallCounts(limits, Burst(limits, log, call, n - 1), call);
    }
  }

  /** After an admission reporting `remaining == r`, exactly `r` more calls at that instant succeed. */
  lemma RemainingIsExact(limits: Limits, log: seq<Admission>, call: Call, k: nat)
    requires NaiveVerdict(limits, log, call).Admitted?
    ensures var r := NaiveVerdict(limits, log, call).info.remaining;
            NaiveVerdict(limits, Burst(limits, log, call, 1 + k), call).Admitted? <==> k < r
  {
    BurstFills(limits, log, call, 1 + k);
    CallCounts(limits, Burst(limits, log, call, 1 + k), call);
  }

  /** A full window has room again exactly when its oldest admission has left it. */
  lemma RoomAgainIff(times: seq<int>, n: nat, last: int, now: int)
    requires n > 0 && WithinLimit(times, n) && NoneAfter(times, last) && last <= now
    requires |Within(times, last - WINDOW, last)| >= n
    ensures last - WINDOW <= Within(times, last - WINDOW, last)[0] <= last
    ensures |Within(times, now - WINDOW, now)| < n <==> now - WINDOW > Within(times, last - WINDOW, last)[0]
  {
    SpreadBoundsEveryWindow(times, n, last - WINDOW);
    RecentIsSuffix(times, last, last);
    RecentIsSuffix(times, last, now);
    LeadingBelowStops(times, last - WINDOW);
    LeadingBelowStops(times, now - WINDOW);
  }

  ghost predicate RejectedThenRetried(limits: Limits, calls: seq<Call>, retry: Call) {
    && calls != [] && Monotone(calls)
    && |Verdicts(limits, calls)| == |calls|
    && Verdicts(limits, calls)[|calls| - 1].Rejected?
    && retry.scope == calls[|calls| - 1].scope
  }

  /** The oldest admission counted when the last call of the run was judged. */
  function OldestAtLast(limits: Limits, calls: seq<Call>): int
    requires calls != []
  {
    var last := calls[|calls| - 1];
    var recent := Recent(LogAfter(limits, [], calls), last.scope, last.now);
    if recent == [] then last.now else recent[0]
  }

  lemma LastWasRejected(limits: Limits, calls: seq<Call>, retry: Call)
    requires RejectedThenRetried(limits, calls, retry)
    ensures var last := calls[|calls| - 1];
            var log := LogAfter(limits, [], calls);
            && limits.Rpm(last.scope) > 0
            && |Recent(log, last.scope, last.now)| >= limits.Rpm(last.scope)
            && WithinLimit(TimesOf(log, last.scope), limits.Rpm(last.scope))
            && NoneAfter(TimesOf(log, last.scope), last.now)
            && Verdicts(limits, calls)[|calls| - 1].info.reset
               == Unix(last.wall) + ResetOffset(OldestAtLast(limits, calls), last.now)
  {
    VerdictAt(limits, calls, |calls| - 1);
    TimesNotAfter(limits, calls);
    RunKeepsLogOk(limits, calls);
  }

  /** With no admission in between, a retry succeeds exactly when the oldest admission counted at the
      rejection has left the window. */
  lemma RetryAdmittedIff(limits: Limits, calls: seq<Call>, retry: Call)
    requires RejectedThenRetried(limits, calls, retry) && retry.now >= calls[|calls| - 1].now
    ensures var verdict := NaiveVerdict(limits, LogAfter(limits, [], calls), retry);
            && !verdict.Unlimited?
            && (verdict.Admitted? <==> retry.now - WINDOW > OldestAtLast(limits, calls))
    ensures calls[|calls| - 1].now - WINDOW <= OldestAtLast(limits, calls) <= calls[|calls| - 1].now
  {
    hide NaiveVerdict, LogAfter, Verdicts, TimesOf, Within;
    var last, log := calls[|calls| - 1], LogAfter(limits, [], calls);
    LastWasRejected(limits, calls, retry);
    RoomAgainIff(TimesOf(log, last.scope), limits.Rpm(last.scope), last.now, retry.now);
    CallCounts(limits, log, retry);
  }

  lemma RecentIsSuffix(times: seq<int>, last: int, now: int)
    requires Sorted(times) && NoneAfter(times, last) && last <= now
    ensures Within(times, now - WINDOW, now) == times[LeadingBelow(times, now - WINDOW)..]
  {
    var i := LeadingBelow(times, now - WINDOW);
    LeadingBelowStops(times, now - WINDOW);
    forall k | i <= k < |times| ensures now - WINDOW <= times[k] <= now {
      assert times[i] <= times[k] <= last;
    }
    WithinIsSlice(times, now - WINDOW, now, i, |times|);
  }

  /** Counted from the rejection on the monotonic clock, a retry after as many seconds as the header is
      ahead of the current second is always too early; one second later it always succeeds. */
  lemma OffsetIsOneSecondEarly(limits: Limits, calls: seq<Call>, retry: Call, offset: nat)
    requires RejectedThenRetried(limits, calls, retry)
    requires Verdicts(limits, calls)[|calls| - 1].info.reset == Unix(calls[|calls| - 1].wall) + offset
    ensures retry.now == calls[|calls| - 1].now + offset * NANOS_PER_SEC ==>
              NaiveVerdict(limits, LogAfter(limits, [], calls), retry).Rejected?
    ensures retry.now == calls[|calls| - 1].now + (offset + 1) * NANOS_PER_SEC ==>
              NaiveVerdict(limits, LogAfter(limits, [], calls), retry).Admitted?
  {
    LastWasRejected(limits, calls, retry);
    if retry.now >= calls[|calls| - 1].now {
      RetryAdmittedIff(limits, calls, retry);
    }
  }

  /** The retry is made when the wall clock, running evenly since the rejection, shows `late` seconds more
      than the advertised instant. */
  ghost predicate RetriedAtReset(limits: Limits, calls: seq<Call>, retry: Call, late: nat) {
    && RejectedThenRetried(limits, calls, retry)
    && var last := calls[|calls| - 1];
    && retry.now >= last.now && retry.wall - last.wall == retry.now - last.now
    && retry.wall == (Verdicts(limits, calls)[|calls| - 1].info.reset + late) * NANOS_PER_SEC
  }

  /** The part below a second of the time of day at the rejection, and of the time its oldest counted
      admission still had in the window. The header cuts off both. */
  function CutOff(limits: Limits, calls: seq<Call>): int
    requires calls != []
  {
    var last := calls[|calls| - 1];
    last.wall % NANOS_PER_SEC + (OldestAtLast(limits, calls) + WINDOW - last.now) % NANOS_PER_SEC
  }

  lemma WaitAgainstLeft(wall: nat, left: nat, wait: int, late: nat)
    requires wall + wait == (Unix(wall) + left / NANOS_PER_SEC + late) * NANOS_PER_SEC
    ensures wait > left <==> late * NANOS_PER_SEC > wall % NANOS_PER_SEC + left % NANOS_PER_SEC
  {
    WholeSeconds(wall, left / NANOS_PER_SEC + late);
    assert left == left / NANOS_PER_SEC * NANOS_PER_SEC + left % NANOS_PER_SEC;
  }

  /** A retry at the advertised instant is always rejected. A second later it is admitted if and only if
      what the header cuts off is less than a second, and two seconds later it always is. */
  lemma RetryAtResetIff(limits: Limits, calls: seq<Call>, retry: Call, late: nat)
    requires RetriedAtReset(limits, calls, retry, late)
    ensures NaiveVerdict(limits, LogAfter(limits, [], calls), retry).Admitted?
       <==> late * NANOS_PER_SEC > CutOff(limits, calls)
    ensures 0 <= CutOff(limits, calls) < 2 * NANOS_PER_SEC
    ensures late == 0 ==> NaiveVerdict(limits, LogAfter(limits, [], calls), retry).Rejected?
    ensures late >= 2 ==> NaiveVerdict(limits, LogAfter(limits, [], calls), retry).Admitted?
  {
    hide LogAfter, Verdicts, NaiveVerdict, OldestAtLast, Unix;
    var last := calls[|calls| - 1];
    LastWasRejected(limits, calls, retry);
    RetryAdmittedIff(limits, calls, retry);
    WaitAgainstLeft(last.wall, OldestAtLast(limits, calls) + WINDOW - last.now, retry.now - last.now, late);
  }

  /** Waiting exactly the sixty seconds of `Retry-After` suffices if and only if the oldest admission
      counted at the rejection is older than the rejection itself; waiting any longer always does. */
  lemma RetryAfterSixtySeconds(limits: Limits, calls: seq<Call>, retry: Call)
    requires RejectedThenRetried(limits, calls, retry)
    ensures retry.now == calls[|calls| - 1].now + WINDOW ==>
              (NaiveVerdict(limits, LogAfter(limits, [], calls), retry).Admitted?
               <==> OldestAtLast(limits, calls) < calls[|calls| - 1].now)
    ensures retry.now > calls[|calls| - 1].now + WINDOW ==>
              NaiveVerdict(limits, LogAfter(limits, [], calls), retry).Admitted?
  {
    if retry.now >= calls[|calls| - 1].now {
      RetryAdmittedIff(limits, calls, retry);
    }
  }

  /** One admission at instant zero under a limit of one, and a second call that meets it. */
  lemma OneThenRejected(first: Call, second: Call)
    requires first.scope == second.scope == Global && first.now == 0 && 0 <= second.now <= WINDOW
    ensures var limits, calls := Limits(1, 1), [first] + [second];
            && LogAfter(limits, [], calls) == [Admission(Global, 0)]
            && |Verdicts(limits, calls)| == 2
            && Verdicts(limits, calls)[1] == NaiveVerdict(limits, [Admission(Global, 0)], second)
            && Verdicts(limits, calls)[1].Rejected?
            && Verdicts(limits, calls)[1].info.reset == Unix(second.wall) + ResetOffset(0, second.now)
            && OldestAtLast(limits, calls) == 0
  {
    hide Verdicts, LogAfter, NaiveVerdict, NaiveLog, Recent;
    var limits, calls := Limits(1, 1), [first] + [second];
    OneAdmitted(first);
    OneMoreRejected(second);
    LogAfterAppend(limits, [first], second);
    VerdictAt(limits, calls, 1);
    assert calls[..1] == [first];
    OneIsRecent(second.now);
  }

  lemma OneAdmitted(first: Call)
    requires first.scope == Global && first.now == 0
    ensures LogAfter(Limits(1, 1), [], [first]) == [Admission(Global, 0)]
  {
    assert [] + [first] == [first];
    LogAfterAppend(Limits(1, 1), [], first);
    CallCounts(Limits(1, 1), [], first);
  }

  lemma OneMoreRejected(second: Call)
    requires second.scope == Global && 0 <= second.now <= WINDOW
    ensures var limits, log := Limits(1, 1), [Admission(Global, 0)];
            && NaiveVerdict(limits, log, second).Rejected? && NaiveLog(limits, log, second) == log
            && NaiveVerdict(limits, log, second).info.reset == Unix(second.wall) + ResetOffset(0, second.now)
  {
    OneIsRecent(second.now);
  }

  lemma OneIsRecent(now: int)
    requires 0 <= now <= WINDOW
    ensures Recent([Admission(Global, 0)], Global, now) == [0]
  {
    assert [] + [Admission(Global, 0)] == [Admission(Global, 0)];
    TimesOfAppend([], Admission(Global, 0), Global);
    WithinAppend([], 0, now - WINDOW, now);
    assert [] + [0] == [0];
  }

  /** A rejection nine tenths into a second with five and a half seconds to go: the header names a whole
      second too few for each, and a retry a second after it is rejected again. */
  lemma RetryAtResetCanFail()
    ensures var calls := [Call(Global, 0, 400_000_000)] + [Call(Global, 54_500_000_000, 54_900_000_000)];
            var retry := Call(Global, 59_600_000_000, 60_000_000_000);
            && RetriedAtReset(Limits(1, 1), calls, retry, 1)
            && NaiveVerdict(Limits(1, 1), LogAfter(Limits(1, 1), [], calls), retry).Rejected?
  {
    hide Verdicts, LogAfter, OldestAtLast, NaiveVerdict, NaiveLog, Recent, TimesOf, Within;
    var first, second := Call(Global, 0, 400_000_000), Call(Global, 54_500_000_000, 54_900_000_000);
    var retry := Call(Global, 59_600_000_000, 60_000_000_000);
    OneThenRejected(first, second);
    assert Unix(second.wall) == 54 && ResetOffset(0, second.now) == 5;
    RetryAdmittedIff(Limits(1, 1), [first] + [second], retry);
    CallCounts(Limits(1, 1), [Admission(Global, 0)], retry);
  }

  /** The run that shows it for `Retry-After`: one admission and one rejection at the same instant, then a
      retry exactly sixty seconds later. */
  lemma RetryAfterSixtyCanFail()
    ensures var calls := [Call(Global, 0, 0)] + [Call(Global, 0, 0)];
            var retry := Call(Global, WINDOW, WINDOW);
            && RejectedThenRetried(Limits(1, 1), calls, retry)
            && NaiveVerdict(Limits(1, 1), LogAfter(Limits(1, 1), [], calls), retry).Rejected?
  {
    hide Verdicts, LogAfter, OldestAtLast, NaiveVerdict;
    var call, retry := Call(Global, 0, 0), Call(Global, WINDOW, WINDOW);
    OneThenRejected(call, call);
    RetryAfterSixtySeconds(Limits(1, 1), [call] + [call], retry);
    CallCounts(Limits(1, 1), [Admission(Global, 0)], retry);
  }
}
