/** What the rate limiter promises, told without its data structures: a limiter that keeps every
    admission for ever and, on each call, counts those of the last sixty seconds.

    Instants are nanoseconds on the monotonic clock; `wall` is the wall clock in nanoseconds. */
module SlidingWindow {
  const NANOS_PER_SEC: int := 1_000_000_000
  const WINDOW: int := 60 * NANOS_PER_SEC

  /** The global window, or the window of one API key. */
  datatype Scope = Global | Key(id: int)

  datatype Admission = Admission(scope: Scope, time: int)

  datatype RateLimitInfo = RateLimitInfo(limit: nat, remaining: nat, reset: nat)

  /** `Unlimited` is the answer of a limit set to zero; it carries no headers. */
  datatype Verdict = Unlimited | Admitted(info: RateLimitInfo) | Rejected(info: RateLimitInfo)

  datatype Limits = Limits(globalRpm: nat, perKeyRpm: nat) {
    function Rpm(s: Scope): nat {
      match s
      case Global => globalRpm
      case Key(_) => perKeyRpm
    }
  }

  datatype Call = Call(scope: Scope, now: int, wall: nat)

  /** Unix time as it is written into headers: the part below a second is cut off. */
  function Unix(wall: nat): nat {
    wall / NANOS_PER_SEC
  }

  /** The instants admitted for `s`, oldest first. */
  function TimesOf(log: seq<Admission>, s: Scope): seq<int> {
    if log == [] then []
    else
      var last := log[|log| - 1];
      TimesOf(log[..|log| - 1], s) + if last.scope == s then [last.time] else []
  }

  /** The instants that fall in the closed interval from `lo` to `hi`. */
  function Within(times: seq<int>, lo: int, hi: int): seq<int> {
    if times == [] then []
    else
      var last := times[|times| - 1];
      Within(times[..|times| - 1], lo, hi) + if lo <= last <= hi then [last] else []
  }

  function Recent(log: seq<Admission>, s: Scope, now: int): seq<int> {
    Within(TimesOf(log, s), now - WINDOW, now)
  }

  /** Whole seconds until `oldest` leaves the window. */
  function ResetOffset(oldest: int, now: int): nat {
    var left := oldest + WINDOW - now;
    if left <= 0 then 0 else left / NANOS_PER_SEC
  }

  function NaiveVerdict(limits: Limits, log: seq<Admission>, call: Call): Verdict {
    var rpm := limits.Rpm(call.scope);
    if rpm == 0 then Unlimited
    else
      var recent := Recent(log, call.scope, call.now);
      if |recent| < rpm then
        Admitted(RateLimitInfo(rpm, rpm - |recent| - 1,
                               Unix(call.wall) + ResetOffset((recent + [call.now])[0], call.now)))
      else
        Rejected(RateLimitInfo(rpm, 0, Unix(call.wall) + ResetOffset(recent[0], call.now)))
  }

  function NaiveLog(limits: Limits, log: seq<Admission>, call: Call): seq<Admission> {
    if NaiveVerdict(limits, log, call).Admitted? then log + [Admission(call.scope, call.now)] else log
  }

  /** The log after a whole run of calls, and the verdicts given along the way. */
  function LogAfter(limits: Limits, log: seq<Admission>, calls: seq<Call>): seq<Admission> {
    if calls == [] then log
    else NaiveLog(limits, LogAfter(limits, log, calls[..|calls| - 1]), calls[|calls| - 1])
  }

  function Verdicts(limits: Limits, calls: seq<Call>): seq<Verdict> {
    if calls == [] then []
    else
      var before := calls[..|calls| - 1];
      Verdicts(limits, before) + [NaiveVerdict(limits, LogAfter(limits, [], before), calls[|calls| - 1])]
  }

  /** The clock is read while the window's lock is held, so it never runs backwards within one lock;
      all keys share a lock and the global window has its own. */
  predicate SameLock(s: Scope, t: Scope) {
    s.Global? == t.Global?
  }

  ghost predicate Monotone(calls: seq<Call>) {
    forall i, j :: 0 <= i < j < |calls| && SameLock(calls[i].scope, calls[j].scope) ==> calls[i].now <= calls[j].now
  }

  ghost predicate Sorted(times: seq<int>) {
    forall i, j :: 0 <= i <= j < |times| ==> times[i] <= times[j]
  }

  ghost predicate NoneAfter(times: seq<int>, now: int) {
    forall i :: 0 <= i < |times| ==> times[i] <= now
  }

  /** Any `n + 1` successive admissions span more than the window. */
  ghost predicate Spread(times: seq<int>, n: nat) {
    forall i :: 0 <= i && i + n < |times| ==> times[i + n] - times[i] > WINDOW
  }

  // ---------------------------------------------------------------- filters

  lemma TimesOfAppend(log: seq<Admission>, a: Admission, s: Scope)
    ensures TimesOf(log + [a], s) == TimesOf(log, s) + if a.scope == s then [a.time] else []
  {
    assert (log + [a])[..|log|] == log;
  }

  lemma {:induction false} TimesOfBounded(log: seq<Admission>, s: Scope, hi: int)
    requires forall a :: a in log && a.scope == s ==> a.time <= hi
    ensures NoneAfter(TimesOf(log, s), hi)
  {
    if log != [] {
      TimesOfBounded(log[..|log| - 1], s, hi);
    }
  }

  lemma SliceEnds(times: seq<int>, i: nat, n: nat)
    requires i <= n < |times|
    ensures times[i..n] + [times[n]] == times[i..n + 1]
  {
  }

  /** The filter over a sequence whose matching instants form one stretch is that stretch. */
  lemma {:induction false} WithinIsSlice(times: seq<int>, lo: int, hi: int, i: nat, j: nat)
    requires i <= j <= |times|
    requires forall k :: 0 <= k < i ==> times[k] < lo
    requires forall k :: i <= k < j ==> lo <= times[k] <= hi
    requires forall k :: j <= k < |times| ==> times[k] > hi
    ensures Within(times, lo, hi) == times[i..j]
  {
    if times != [] {
      var n := |times| - 1;
      if j <= n {
        WithinIsSlice(times[..n], lo, hi, i, j);
        assert times[..n][i..j] == times[i..j];
      } else if i <= n {
        WithinIsSlice(times[..n], lo, hi, i, n);
        assert times[..n][i..n] == times[i..n];
        SliceEnds(times, i, n);
      } else {
        WithinIsSlice(times[..n], lo, hi, n, n);
      }
    }
  }

  /** The number of leading instants below `bound`. */
  function LeadingBelow(times: seq<int>, bound: int): (k: nat)
    ensures k <= |times|
  {
    if times == [] || times[0] >= bound then 0 else 1 + LeadingBelow(times[1..], bound)
  }

  lemma {:induction false} LeadingBelowStops(times: seq<int>, bound: int)
    ensures var k := LeadingBelow(times, bound);
            && (forall i :: 0 <= i < k ==> times[i] < bound)
            && (k < |times| ==> times[k] >= bound)
  {
    if times != [] && times[0] < bound {
      LeadingBelowStops(times[1..], bound);
      forall i | 0 <= i < LeadingBelow(times, bound) ensures times[i] < bound {
        if i > 0 {
          assert times[i] == times[1..][i - 1];
        }
      }
    }
  }

  lemma WithinSorted(times: seq<int>, lo: int, hi: int)
    requires Sorted(times) && lo <= hi + 1
    ensures var i, j := LeadingBelow(times, lo), LeadingBelow(times, hi + 1);
            i <= j && Within(times, lo, hi) == times[i..j]
  {
    var i, j := LeadingBelow(times, lo), LeadingBelow(times, hi + 1);
    LeadingBelowStops(times, lo);
    LeadingBelowStops(times, hi + 1);
    WithinIsSlice(times, lo, hi, i, j);
  }

  // ---------------------------------------------------------------- the bound

  /** Spread admissions never exceed `n` in any closed window. */
  lemma SpreadBoundsEveryWindow(times: seq<int>, n: nat, lo: int)
    requires Sorted(times) && Spread(times, n)
    ensures |Within(times, lo, lo + WINDOW)| <= n
  {
    WithinSorted(times, lo, lo + WINDOW);
    var i, j := LeadingBelow(times, lo), LeadingBelow(times, lo + WINDOW + 1);
    LeadingBelowStops(times, lo);
    LeadingBelowStops(times, lo + WINDOW + 1);
    if i + n < |times| {
      assert times[i + n] - times[i] > WINDOW;
    }
  }

  /** Admitting when fewer than `n` recent admissions exist keeps the admissions spread. */
  lemma AdmissionKeepsSpread(times: seq<int>, n: nat, now: int)
    requires Sorted(times) && Spread(times, n)
    requires NoneAfter(times, now)
    requires |Within(times, now - WINDOW, now)| < n
    ensures Sorted(times + [now]) && Spread(times + [now], n)
  {
    WithinSorted(times, now - WINDOW, now);
    var i, j := LeadingBelow(times, now - WINDOW), LeadingBelow(times, now + 1);
    LeadingBelowStops(times, now - WINDOW);
    LeadingBelowStops(times, now + 1);
    assert NoneAfter(times, now) ==> j == |times|;
    var after := times + [now];
    forall k | 0 <= k && k + n < |after| ensures after[k + n] - after[k] > WINDOW {
      if k + n == |times| {
        assert k < i;
      }
    }
  }

  ghost predicate WithinLimit(times: seq<int>, n: nat) {
    n > 0 ==> Sorted(times) && Spread(times, n)
  }

  /** What every reachable log satisfies. */
  ghost predicate LogOk(limits: Limits, log: seq<Admission>) {
    forall s :: WithinLimit(TimesOf(log, s), limits.Rpm(s))
  }

  /** Every admission of a run carries the time of one of its calls. */
  lemma {:induction false} LogFromCalls(limits: Limits, calls: seq<Call>)
    ensures forall a :: a in LogAfter(limits, [], calls) ==>
                          exists i :: 0 <= i < |calls| && calls[i].scope == a.scope && calls[i].now == a.time
  {
    if calls != [] {
      var before := calls[..|calls| - 1];
      LogFromCalls(limits, before);
      forall a | a in LogAfter(limits, [], calls)
        ensures exists i :: 0 <= i < |calls| && calls[i].scope == a.scope && calls[i].now == a.time
      {
        if a in LogAfter(limits, [], before) {
          var i :| 0 <= i < |before| && before[i].scope == a.scope && before[i].now == a.time;
          assert calls[i] == before[i];
        } else {
          assert calls[|calls| - 1].scope == a.scope;
        }
      }
    }
  }

  lemma TimesNotAfter(limits: Limits, calls: seq<Call>)
    requires calls != [] && Monotone(calls)
    ensures var last := calls[|calls| - 1];
            NoneAfter(TimesOf(LogAfter(limits, [], calls[..|calls| - 1]), last.scope), last.now)
  {
    var last := calls[|calls| - 1];
    var before := calls[..|calls| - 1];
    var log := LogAfter(limits, [], before);
    LogFromCalls(limits, before);
    forall a | a in log && a.scope == last.scope ensures a.time <= last.now {
      var i :| 0 <= i < |before| && before[i].scope == a.scope && before[i].now == a.time;
      assert calls[i] == before[i];
    }
    TimesOfBounded(log, last.scope, last.now);
  }

  lemma CallKeepsScope(limits: Limits, log: seq<Admission>, call: Call, s: Scope)
    requires WithinLimit(TimesOf(log, s), limits.Rpm(s))
    requires s == call.scope ==> NoneAfter(TimesOf(log, s), call.now)
    ensures WithinLimit(TimesOf(NaiveLog(limits, log, call), s), limits.Rpm(s))
  {
    if NaiveVerdict(limits, log, call).Admitted? {
      TimesOfAppend(log, Admission(call.scope, call.now), s);
      if s == call.scope {
        AdmissionKeepsSpread(TimesOf(log, s), limits.Rpm(s), call.now);
      } else {
        assert TimesOf(log, s) + [] == TimesOf(log, s);
      }
    }
  }

  /** One call that does not go back in time keeps the log within the limits. */
  lemma CallKeepsLogOk(limits: Limits, log: seq<Admission>, call: Call)
    requires LogOk(limits, log) && NoneAfter(TimesOf(log, call.scope), call.now)
    ensures LogOk(limits, NaiveLog(limits, log, call))
  {
    forall s ensures WithinLimit(TimesOf(NaiveLog(limits, log, call), s), limits.Rpm(s)) {
      CallKeepsScope(limits, log, call, s);
    }
  }

  lemma {:induction false} RunKeepsLogOk(limits: Limits, calls: seq<Call>)
    requires Monotone(calls)
    ensures LogOk(limits, LogAfter(limits, [], calls))
  {
    if calls != [] {
      var before := calls[..|calls| - 1];
      RunKeepsLogOk(limits, before);
      TimesNotAfter(limits, calls);
      CallKeepsLogOk(limits, LogAfter(limits, [], before), calls[|calls| - 1]);
    }
  }

  /** Over every run, and every closed interval of sixty seconds anywhere in time, admissions stay
      within the limit, overall and per key. */
  lemma NeverOverLimit(limits: Limits, calls: seq<Call>, s: Scope, lo: int)
    requires Monotone(calls) && limits.Rpm(s) > 0
    ensures |Within(TimesOf(LogAfter(limits, [], calls), s), lo, lo + WINDOW)| <= limits.Rpm(s)
  {
    RunKeepsLogOk(limits, calls);
    assert WithinLimit(TimesOf(LogAfter(limits, [], calls), s), limits.Rpm(s));
    SpreadBoundsEveryWindow(TimesOf(LogAfter(limits, [], calls), s), limits.Rpm(s), lo);
  }

  lemma VerdictAt(limits: Limits, calls: seq<Call>, i: nat)
    requires i < |calls|
    ensures |Verdicts(limits, calls)| == |calls|
    ensures Verdicts(limits, calls)[i] == NaiveVerdict(limits, LogAfter(limits, [], calls[..i]), calls[i])
  {
    var before := calls[..|calls| - 1];
    if |before| > 0 {
      VerdictAt(limits, before, if i < |before| then i else 0);
    }
    if i < |before| {
      assert before[..i] == calls[..i];
    }
  }

  /** A call is turned away exactly when the limit's worth of admissions lies in the sixty seconds
      up to it. */
  lemma RejectedIffFull(limits: Limits, calls: seq<Call>, i: nat)
    requires Monotone(calls) && i < |calls| && limits.Rpm(calls[i].scope) > 0
    ensures |Verdicts(limits, calls)| == |calls|
    ensures Verdicts(limits, calls)[i].Rejected?
       <==> |Recent(LogAfter(limits, [], calls[..i]), calls[i].scope, calls[i].now)| == limits.Rpm(calls[i].scope)
    ensures Verdicts(limits, calls)[i].Admitted?
       <==> |Recent(LogAfter(limits, [], calls[..i]), calls[i].scope, calls[i].now)| < limits.Rpm(calls[i].scope)
  {
    VerdictAt(limits, calls, i);
    NeverOverLimit(limits, calls[..i], calls[i].scope, calls[i].now - WINDOW);
  }

  // ---------------------------------------------------------------- independence

  function CallsOf(calls: seq<Call>, s: Scope): seq<Call> {
    if calls == [] then []
    else
      var last := calls[|calls| - 1];
      CallsOf(calls[..|calls| - 1], s) + if last.scope == s then [last] else []
  }

  function VerdictsOf(limits: Limits, calls: seq<Call>, s: Scope): seq<Verdict> {
    if calls == [] then []
    else
      var before, last := calls[..|calls| - 1], calls[|calls| - 1];
      VerdictsOf(limits, before, s)
      + if last.scope == s then [NaiveVerdict(limits, LogAfter(limits, [], before), last)] else []
  }

  lemma VerdictDependsOnOwnTimes(limits: Limits, log: seq<Admission>, log': seq<Admission>, call: Call)
    requires TimesOf(log, call.scope) == TimesOf(log', call.scope)
    ensures NaiveVerdict(limits, log, call) == NaiveVerdict(limits, log', call)
  {
  }

  lemma LogAfterAppend(limits: Limits, calls: seq<Call>, call: Call)
    ensures LogAfter(limits, [], calls + [call]) == NaiveLog(limits, LogAfter(limits, [], calls), call)
    ensures Verdicts(limits, calls + [call])
         == Verdicts(limits, calls) + [NaiveVerdict(limits, LogAfter(limits, [], calls), call)]
  {
    assert (calls + [call])[..|calls|] == calls;
  }

  lemma {:induction false} OwnTimesIgnoreOthers(limits: Limits, calls: seq<Call>, s: Scope)
    ensures TimesOf(LogAfter(limits, [], calls), s) == TimesOf(LogAfter(limits, [], CallsOf(calls, s)), s)
  {
    if calls != [] {
      var before, last := calls[..|calls| - 1], calls[|calls| - 1];
      var log, own := LogAfter(limits, [], before), LogAfter(limits, [], CallsOf(before, s));
      OwnTimesIgnoreOthers(limits, before, s);
      TimesOfAppend(log, Admission(last.scope, last.now), s);
      if last.scope == s {
        TimesOfAppend(own, Admission(s, last.now), s);
        VerdictDependsOnOwnTimes(limits, log, own, last);
        LogAfterAppend(limits, CallsOf(before, s), last);
      } else {
        assert CallsOf(calls, s) == CallsOf(before, s);
      }
    }
  }

  /** Keys never affect each other: the verdicts a scope sees in any run are those of the run that
      makes only that scope's calls. */
  lemma {:induction false} ScopesAreIndependent(limits: Limits, calls: seq<Call>, s: Scope)
    ensures VerdictsOf(limits, calls, s) == Verdicts(limits, CallsOf(calls, s))
  {
    if calls != [] {
      var before, last := calls[..|calls| - 1], calls[|calls| - 1];
      ScopesAreIndependent(limits, before, s);
      if last.scope == s {
        OwnTimesIgnoreOthers(limits, before, s);
        VerdictDependsOnOwnTimes(limits, LogAfter(limits, [], before), LogAfter(limits, [], CallsOf(before, s)), last);
        LogAfterAppend(limits, CallsOf(before, s), last);
      } else {
        assert CallsOf(calls, s) == CallsOf(before, s);
      }
    }
  }
}
