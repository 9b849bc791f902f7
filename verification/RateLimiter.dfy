/** The sliding-window limiter as it is built: a deque of instants for the global limit, a map of
    deques for the keys, and a clean-up of the map on every 1024th per-key call. */
module RateLimiting {
  import opened SlidingWindow

  const PER_KEY_CLEANUP_EVERY: nat := 1024

  predicate InOrder(window: seq<int>) {
    |window| <= 1 || (window[0] <= window[1] && InOrder(window[1..]))
  }

  /** The deque once everything older than sixty seconds before `now` has been popped. */
  function PrunedAt(window: seq<int>, now: int): seq<int> {
    window[LeadingBelow(window, now - WINDOW)..]
  }

  function RecentAt(times: seq<int>, now: int): seq<int> {
    Within(times, now - WINDOW, now)
  }

  /** The deque against everything ever admitted: from `clock` on, pruning it gives exactly the
      recent admissions. */
  ghost predicate Holds(window: seq<int>, times: seq<int>, clock: int) {
    && InOrder(window)
    && (window != [] ==> window[|window| - 1] <= clock)
    && (forall now :: clock <= now ==> PrunedAt(window, now) == RecentAt(times, now))
  }

  /** Pops from the front while the front is older than the cutoff. */
  method PruneWindow(window: seq<int>, now: int) returns (pruned: seq<int>)
    ensures pruned == PrunedAt(window, now)
  {
    var cutoff := now - WINDOW;
    pruned := window;
    while pruned != [] && pruned[0] < cutoff
      invariant |pruned| <= |window| && pruned == window[|window| - |pruned|..]
      invariant LeadingBelow(window, cutoff) == |window| - |pruned| + LeadingBelow(pruned, cutoff)
      decreases |pruned|
    {
      pruned := pruned[1..];
    }
  }

  /** The seconds until the front of the deque leaves the window, added to the time of day: the front is
      gone within the second that follows them, and an instant later than sixty seconds is never named. */
  method ComputeReset(window: seq<int>, now: int, wall: nat) returns (reset: nat)
    ensures Unix(wall) <= reset
    ensures window == [] ==> reset == Unix(wall) + 60
    ensures window != [] && window[0] <= now ==> reset <= Unix(wall) + 60
    ensures window != [] && window[0] + WINDOW <= now ==> reset == Unix(wall)
    ensures window != [] && now <= window[0] + WINDOW ==>
      var seconds := reset - Unix(wall);
      now + seconds * NANOS_PER_SEC <= window[0] + WINDOW < now + (seconds + 1) * NANOS_PER_SEC
  {
    var unix := wall / NANOS_PER_SEC;
    if window != [] {
      var left := window[0] + WINDOW - now;
      var delta := if left <= 0 then 0 else left / NANOS_PER_SEC;
      reset := unix + delta;
    } else {
      reset := unix + WINDOW / NANOS_PER_SEC;
    }
  }

  /** That determines the number. */
  lemma ResetIsOffset(front: int, now: int, seconds: nat)
    requires front + WINDOW <= now ==> seconds == 0
    requires now <= front + WINDOW ==>
      now + seconds * NANOS_PER_SEC <= front + WINDOW < now + (seconds + 1) * NANOS_PER_SEC
    ensures seconds == ResetOffset(front, now)
  {
  }

  lemma EmptyOrHas(s: set<int>)
    ensures s == {} || exists k :: k in s
  {
    if forall k :: k !in s {
      assert s == {};
    }
  }

  /** `retain`: prunes every window and drops the keys left with none. */
  method RetainFresh(windows: map<int, seq<int>>, now: int) returns (kept: map<int, seq<int>>)
    ensures forall k :: k in kept <==> k in windows && PrunedAt(windows[k], now) != []
    ensures forall k :: k in kept ==> kept[k] == PrunedAt(windows[k], now)
  {
    kept := map[];
    var pending := windows.Keys;
    while |pending| > 0
      invariant pending <= windows.Keys
      invariant forall k :: k in kept <==>
                  k in windows && k !in pending && PrunedAt(windows[k], now) != []
      invariant forall k :: k in kept ==> kept[k] == PrunedAt(windows[k], now)
      decreases pending
    {
      EmptyOrHas(pending);
      var k :| k in pending;
      var window := PruneWindow(windows[k], now);
      if window != [] {
        kept := kept[k := window];
      }
      pending := pending - {k};
    }
  }

  // ---------------------------------------------------------------- deque facts

  lemma {:induction false} PruneTwice(window: seq<int>, early: int, late: int)
    requires early <= late
    ensures PrunedAt(PrunedAt(window, early), late) == PrunedAt(window, late)
  {
    if window != [] && window[0] < early - WINDOW {
      PruneTwice(window[1..], early, late);
      PrunePops(window, early);
      PrunePops(window, late);
    } else {
      assert PrunedAt(window, early) == window;
    }
  }

  lemma PrunePops(window: seq<int>, now: int)
    requires window != [] && window[0] < now - WINDOW
    ensures PrunedAt(window, now) == PrunedAt(window[1..], now)
  {
  }

  lemma {:induction false} PruneStaysInOrder(window: seq<int>, now: int)
    requires InOrder(window)
    ensures InOrder(PrunedAt(window, now))
    ensures PrunedAt(window, now) != [] ==>
              window != [] && PrunedAt(window, now)[|PrunedAt(window, now)| - 1] == window[|window| - 1]
  {
    if window != [] && window[0] < now - WINDOW {
      PruneStaysInOrder(window[1..], now);
      PrunePops(window, now);
    } else {
      assert PrunedAt(window, now) == window;
    }
  }

  lemma {:induction false} HeadAtMostLast(window: seq<int>)
    requires InOrder(window) && window != []
    ensures window[0] <= window[|window| - 1]
  {
    if |window| > 1 {
      HeadAtMostLast(window[1..]);
    }
  }

  lemma {:induction false} PushStaysInOrder(window: seq<int>, t: int)
    requires InOrder(window) && (window != [] ==> window[|window| - 1] <= t)
    ensures InOrder(window + [t])
  {
    if |window| > 1 {
      PushStaysInOrder(window[1..], t);
      assert (window + [t])[1..] == window[1..] + [t];
    }
  }

  lemma {:induction false} PruneOfPush(window: seq<int>, t: int, now: int)
    requires InOrder(window) && (window != [] ==> window[|window| - 1] <= t)
    ensures PrunedAt(window + [t], now) == PrunedAt(window, now) + if now - WINDOW <= t then [t] else []
  {
    if window == [] {
    } else if window[0] < now - WINDOW {
      PruneOfPush(window[1..], t, now);
      assert (window + [t])[1..] == window[1..] + [t];
      PrunePops(window, now);
      PrunePops(window + [t], now);
    } else {
      HeadAtMostLast(window);
      assert PrunedAt(window, now) == window && PrunedAt(window + [t], now) == window + [t];
    }
  }

  lemma PushIsRecent(times: seq<int>, t: int, now: int)
    requires t <= now
    ensures RecentAt(times + [t], now) == RecentAt(times, now) + if now - WINDOW <= t then [t] else []
  {
    assert (times + [t])[..|times|] == times;
  }

  lemma PruneKeepsHold(window: seq<int>, times: seq<int>, clock: int, now: int)
    requires Holds(window, times, clock) && clock <= now
    ensures Holds(PrunedAt(window, now), times, now) && PrunedAt(window, now) == RecentAt(times, now)
  {
    PruneStaysInOrder(window, now);
    forall later | now <= later ensures PrunedAt(PrunedAt(window, now), later) == RecentAt(times, later) {
      PruneTwice(window, now, later);
    }
  }

  lemma PushKeepsHold(window: seq<int>, times: seq<int>, now: int)
    requires Holds(window, times, now)
    ensures Holds(window + [now], times + [now], now)
  {
    PushStaysInOrder(window, now);
    forall later | now <= later ensures PrunedAt(window + [now], later) == RecentAt(times + [now], later) {
      PruneOfPush(window, now, later);
      PushIsRecent(times, now, later);
    }
  }

  /** What the deque stands for does not depend on when it is looked at next. */
  lemma TimePassingKeepsHold(window: seq<int>, times: seq<int>, clock: int, now: int)
    requires Holds(window, times, clock) && clock <= now
    ensures Holds(window, times, now)
  {
  }

  // ---------------------------------------------------------------- one check

  /** The deque after a check: pruned, and with the call pushed when there is room. */
  function Checked(window: seq<int>, now: int, rpm: nat): seq<int> {
    var pruned := PrunedAt(window, now);
    if |pruned| < rpm then pruned + [now] else pruned
  }

  function CheckVerdict(window: seq<int>, now: int, wall: nat, rpm: nat): Verdict
    requires rpm > 0
  {
    var after := Checked(window, now, rpm);
    var reset := Unix(wall) + ResetOffset(after[0], now);
    if |PrunedAt(window, now)| < rpm then Admitted(RateLimitInfo(rpm, rpm - |after|, reset))
    else Rejected(RateLimitInfo(rpm, 0, reset))
  }

  lemma RecentJudges(limits: Limits, log: seq<Admission>, call: Call, window: seq<int>)
    requires PrunedAt(window, call.now) == RecentAt(TimesOf(log, call.scope), call.now)
    requires limits.Rpm(call.scope) > 0
    ensures NaiveVerdict(limits, log, call) == CheckVerdict(window, call.now, call.wall, limits.Rpm(call.scope))
  {
    var recent := Recent(log, call.scope, call.now);
    assert recent == PrunedAt(window, call.now);
  }

  /** A check on a deque that holds the log gives the verdict of the full log ... */
  lemma CheckAgrees(limits: Limits, log: seq<Admission>, call: Call, window: seq<int>, clock: int)
    requires Holds(window, TimesOf(log, call.scope), clock) && clock <= call.now
    requires limits.Rpm(call.scope) > 0
    ensures NaiveVerdict(limits, log, call) == CheckVerdict(window, call.now, call.wall, limits.Rpm(call.scope))
  {
    RecentJudges(limits, log, call, window);
  }

  lemma TimesAfterCheck(limits: Limits, log: seq<Admission>, call: Call)
    requires limits.Rpm(call.scope) > 0
    ensures TimesOf(NaiveLog(limits, log, call), call.scope)
         == if |RecentAt(TimesOf(log, call.scope), call.now)| < limits.Rpm(call.scope)
            then TimesOf(log, call.scope) + [call.now] else TimesOf(log, call.scope)
  {
    TimesOfAppend(log, Admission(call.scope, call.now), call.scope);
  }

  lemma CheckedHolds(window: seq<int>, times: seq<int>, clock: int, now: int, rpm: nat)
    requires Holds(window, times, clock) && clock <= now
    ensures Holds(Checked(window, now, rpm), if |RecentAt(times, now)| < rpm then times + [now] else times, now)
  {
    PruneKeepsHold(window, times, clock, now);
    PushKeepsHold(PrunedAt(window, now), times, now);
  }

  /** ... and leaves a deque that holds the extended log. */
  lemma CheckKeepsHold(limits: Limits, log: seq<Admission>, call: Call, window: seq<int>, clock: int)
    requires Holds(window, TimesOf(log, call.scope), clock) && clock <= call.now
    requires limits.Rpm(call.scope) > 0
    ensures Holds(Checked(window, call.now, limits.Rpm(call.scope)),
                  TimesOf(NaiveLog(limits, log, call), call.scope), call.now)
  {
    TimesAfterCheck(limits, log, call);
    CheckedHolds(window, TimesOf(log, call.scope), clock, call.now, limits.Rpm(call.scope));
  }

  lemma OtherScopesUntouched(limits: Limits, log: seq<Admission>, call: Call)
    ensures forall s :: s != call.scope ==> TimesOf(NaiveLog(limits, log, call), s) == TimesOf(log, s)
  {
    forall s | s != call.scope ensures TimesOf(NaiveLog(limits, log, call), s) == TimesOf(log, s) {
      TimesOfAppend(log, Admission(call.scope, call.now), s);
    }
  }

  /** What both checks do with the deque they have locked. */
  method CheckWindow(window: seq<int>, now: int, wall: nat, rpm: nat) returns (after: seq<int>, verdict: Verdict)
    requires rpm > 0
    ensures after == Checked(window, now, rpm)
    ensures verdict == CheckVerdict(window, now, wall, rpm)
  {
    after := PruneWindow(window, now);
    if |after| < rpm {
      after := after + [now];
      var remaining := rpm - |after|;
      var reset := ComputeReset(after, now, wall);
      ResetIsOffset(after[0], now, reset - Unix(wall));
      verdict := Admitted(RateLimitInfo(rpm, remaining, reset));
    } else {
      var reset := ComputeReset(after, now, wall);
      ResetIsOffset(after[0], now, reset - Unix(wall));
      verdict := Rejected(RateLimitInfo(rpm, 0, reset));
    }
  }

  function WindowOf(windows: map<int, seq<int>>, k: int): seq<int> {
    if k in windows then windows[k] else []
  }

  /** Every stored window holds its key's log, is not empty and is no longer than the limit; a key
      without a window is one with nothing recent. */
  ghost predicate KeysHold(windows: map<int, seq<int>>, log: seq<Admission>, clock: int, rpm: nat) {
    && (forall k :: Holds(WindowOf(windows, k), TimesOf(log, Key(k)), clock))
    && (forall k :: k in windows ==> 0 < |windows[k]| <= rpm)
  }

  ghost predicate GlobalHolds(window: seq<int>, log: seq<Admission>, clock: int, rpm: nat) {
    Holds(window, TimesOf(log, Global), clock) && |window| <= rpm
  }

  lemma KeyCheckKeepsGlobal(window: seq<int>, limits: Limits, log: seq<Admission>, call: Call, clock: int)
    requires GlobalHolds(window, log, clock, limits.globalRpm) && call.scope.Key?
    ensures GlobalHolds(window, NaiveLog(limits, log, call), clock, limits.globalRpm)
  {
    OtherScopesUntouched(limits, log, call);
  }

  lemma GlobalCheckKeepsGlobal(window: seq<int>, limits: Limits, log: seq<Admission>, call: Call, clock: int)
    requires GlobalHolds(window, log, clock, limits.globalRpm) && call.scope == Global
    requires limits.globalRpm > 0 && clock <= call.now
    ensures GlobalHolds(Checked(window, call.now, limits.globalRpm), NaiveLog(limits, log, call), call.now, limits.globalRpm)
  {
    CheckKeepsHold(limits, log, call, window, clock);
  }

  lemma GlobalCheckKeepsKeys(windows: map<int, seq<int>>, limits: Limits, log: seq<Admission>, call: Call, clock: int)
    requires KeysHold(windows, log, clock, limits.perKeyRpm) && call.scope == Global
    ensures KeysHold(windows, NaiveLog(limits, log, call), clock, limits.perKeyRpm)
  {
    OtherScopesUntouched(limits, log, call);
    forall k ensures Holds(WindowOf(windows, k), TimesOf(NaiveLog(limits, log, call), Key(k)), clock) {
      assert Holds(WindowOf(windows, k), TimesOf(log, Key(k)), clock);
    }
  }

  lemma KeyCheckKeepsKeys(windows: map<int, seq<int>>, limits: Limits, log: seq<Admission>, call: Call, clock: int)
    requires KeysHold(windows, log, clock, limits.perKeyRpm) && clock <= call.now
    requires call.scope.Key? && limits.perKeyRpm > 0
    ensures var after := Checked(WindowOf(windows, call.scope.id), call.now, limits.perKeyRpm);
            KeysHold(windows[call.scope.id := after], NaiveLog(limits, log, call), call.now, limits.perKeyRpm)
  {
    hide Holds, NaiveLog, PrunedAt;
    var id := call.scope.id;
    var after := Checked(WindowOf(windows, id), call.now, limits.perKeyRpm);
    var windows' := windows[id := after];
    forall k ensures Holds(WindowOf(windows', k), TimesOf(NaiveLog(limits, log, call), Key(k)), call.now) {
      assert Holds(WindowOf(windows, k), TimesOf(log, Key(k)), clock);
      if k == id {
        CheckKeepsHold(limits, log, call, WindowOf(windows, id), clock);
      } else {
        OtherScopesUntouched(limits, log, call);
        TimePassingKeepsHold(WindowOf(windows, k), TimesOf(log, Key(k)), clock, call.now);
      }
    }
    CheckedFits(WindowOf(windows, id), call.now, limits.perKeyRpm);
  }

  lemma CheckedFits(window: seq<int>, now: int, rpm: nat)
    requires |window| <= rpm && rpm > 0
    ensures 0 < |Checked(window, now, rpm)| <= rpm
  {
  }

  /** The clean-up keeps every key's window in step with the log, and exactly the keys that have an
      admission in the last sixty seconds. */
  lemma RetainKeepsKeys(windows: map<int, seq<int>>, kept: map<int, seq<int>>, log: seq<Admission>,
                        clock: int, now: int, rpm: nat)
    requires KeysHold(windows, log, clock, rpm) && clock <= now
    requires forall k :: k in kept <==> k in windows && PrunedAt(windows[k], now) != []
    requires forall k :: k in kept ==> kept[k] == PrunedAt(windows[k], now)
    ensures KeysHold(kept, log, now, rpm)
    ensures StoredKeys(kept.Keys, {}, log, now)
  {
    forall k
      ensures Holds(WindowOf(kept, k), TimesOf(log, Key(k)), now)
      ensures k in kept <==> Recent(log, Key(k), now) != []
    {
      assert Holds(WindowOf(windows, k), TimesOf(log, Key(k)), clock);
      RetainKeepsKey(windows, kept, k, TimesOf(log, Key(k)), clock, now);
    }
  }

  lemma RetainKeepsKey(windows: map<int, seq<int>>, kept: map<int, seq<int>>, k: int, times: seq<int>, clock: int, now: int)
    requires Holds(WindowOf(windows, k), times, clock) && clock <= now
    requires k in kept <==> k in windows && PrunedAt(windows[k], now) != []
    requires k in kept ==> kept[k] == PrunedAt(windows[k], now)
    ensures Holds(WindowOf(kept, k), times, now)
    ensures k in kept <==> RecentAt(times, now) != []
  {
    hide LeadingBelow, Within, InOrder;
    PruneKeepsHold(WindowOf(windows, k), times, clock, now);
    assert PrunedAt([], now) == [];
    assert WindowOf(kept, k) == PrunedAt(WindowOf(windows, k), now);
  }

  /** The keys still stored are those called since the last clean-up together with those it found an
      admission for in the sixty seconds before it. */
  ghost predicate StoredKeys(stored: set<int>, called: set<int>, cleanupLog: seq<Admission>, cleanupTime: int) {
    forall k :: k in stored <==> k in called || Recent(cleanupLog, Key(k), cleanupTime) != []
  }

  lemma CountSteps(count: nat)
    ensures var next := (count + 1) % PER_KEY_CLEANUP_EVERY;
            next == 0 || next == count % PER_KEY_CLEANUP_EVERY + 1
  {
  }

  lemma CallIsStored(windows: map<int, seq<int>>, k: int, window: seq<int>, called: set<int>,
                     cleanupLog: seq<Admission>, cleanupTime: int, bound: nat)
    requires StoredKeys(windows.Keys, called, cleanupLog, cleanupTime)
    requires |called| <= bound
    ensures StoredKeys(windows[k := window].Keys, called + {k}, cleanupLog, cleanupTime)
    ensures |called + {k}| <= bound + 1
  {
  }

  class RateLimiter {
    const globalRpm: nat
    const perKeyRpm: nat
    var globalWindow: seq<int>
    var perKeyWindows: map<int, seq<int>>
    var perKeyCheckCount: nat

    /** Every admission ever made, and the last instant read under each of the two locks. */
    ghost var log: seq<Admission>
    ghost var globalClock: int
    ghost var keyClock: int

    /** The keys called since the last clean-up, and what that clean-up saw. */
    ghost var called: set<int>
    ghost var cleanupLog: seq<Admission>
    ghost var cleanupTime: int

    ghost function Bounds(): Limits { Limits(globalRpm, perKeyRpm) }

    ghost predicate Valid()
      reads this
    {
      && GlobalHolds(globalWindow, log, globalClock, globalRpm)
      && KeysHold(perKeyWindows, log, keyClock, perKeyRpm)
      && StoredKeys(perKeyWindows.Keys, called, cleanupLog, cleanupTime)
      && |called| <= perKeyCheckCount % PER_KEY_CLEANUP_EVERY + 1
    }

    constructor (globalRpm: nat, perKeyRpm: nat, ghost start: int)
      ensures Valid() && log == [] && globalClock == start && keyClock == start
      ensures this.globalRpm == globalRpm && this.perKeyRpm == perKeyRpm
      ensures perKeyWindows == map[] && perKeyCheckCount == 0
    {
      this.globalRpm, this.perKeyRpm := globalRpm, perKeyRpm;
      globalWindow, perKeyWindows, perKeyCheckCount := [], map[], 0;
      log, globalClock, keyClock := [], start, start;
      called, cleanupLog, cleanupTime := {}, [], start;
    }

    /** The global check gives the verdict of the limiter that never forgets. */
    method CheckGlobal(now: int, wall: nat) returns (verdict: Verdict)
      requires Valid() && now >= globalClock
      modifies this`globalWindow, this`log, this`globalClock
      ensures Valid()
      ensures verdict == NaiveVerdict(Bounds(), old(log), Call(Global, now, wall))
      ensures log == NaiveLog(Bounds(), old(log), Call(Global, now, wall))
      ensures globalClock == if globalRpm == 0 then old(globalClock) else now
    {
      hide Holds;
      if globalRpm == 0 {
        return Unlimited;
      }
      ghost var call := Call(Global, now, wall);
      ghost var extended := NaiveLog(Bounds(), log, call);
      CheckAgrees(Bounds(), log, call, globalWindow, globalClock);
      GlobalCheckKeepsGlobal(globalWindow, Bounds(), log, call, globalClock);
      GlobalCheckKeepsKeys(perKeyWindows, Bounds(), log, call, keyClock);
      globalWindow, verdict := CheckWindow(globalWindow, now, wall, globalRpm);
      log := extended;
      globalClock := now;
    }

    /** Every 1024th per-key call first drops the keys with nothing recent. */
    method CleanUp(now: int)
      requires KeysHold(perKeyWindows, log, keyClock, perKeyRpm) && keyClock <= now
      modifies this`perKeyWindows, this`keyClock, this`called, this`cleanupLog, this`cleanupTime
      ensures KeysHold(perKeyWindows, log, now, perKeyRpm)
      ensures StoredKeys(perKeyWindows.Keys, {}, log, now)
      ensures keyClock == now && called == {} && cleanupLog == log && cleanupTime == now
    {
      var kept := RetainFresh(perKeyWindows, now);
      RetainKeepsKeys(perKeyWindows, kept, log, keyClock, now, perKeyRpm);
      perKeyWindows := kept;
      keyClock, called, cleanupLog, cleanupTime := now, {}, log, now;
    }

    /** The per-key check gives the verdict of the limiter that never forgets: the clean-up on every
        1024th call cannot be observed. */
    method CheckPerKey(keyId: int, now: int, wall: nat) returns (verdict: Verdict)
      requires Valid() && now >= keyClock
      modifies this`perKeyWindows, this`perKeyCheckCount, this`log, this`keyClock
      modifies this`called, this`cleanupLog, this`cleanupTime
      ensures Valid()
      ensures verdict == NaiveVerdict(Bounds(), old(log), Call(Key(keyId), now, wall))
      ensures log == NaiveLog(Bounds(), old(log), Call(Key(keyId), now, wall))
      ensures keyClock == if perKeyRpm == 0 then old(keyClock) else now
      ensures perKeyCheckCount == old(perKeyCheckCount) + if perKeyRpm == 0 then 0 else 1
    {
      hide Holds, KeysHold, StoredKeys, GlobalHolds;
      if perKeyRpm == 0 {
        return Unlimited;
      }
      ghost var call := Call(Key(keyId), now, wall);
      KeyCheckKeepsGlobal(globalWindow, Bounds(), log, call, globalClock);
      CountSteps(perKeyCheckCount);
      perKeyCheckCount := perKeyCheckCount + 1;
      if perKeyCheckCount % PER_KEY_CLEANUP_EVERY == 0 {
        CleanUp(now);
      }
      verdict := CheckStoredWindow(keyId, now, wall);
    }

    /** The check proper, on the key's own window. */
    method CheckStoredWindow(keyId: int, now: int, wall: nat) returns (verdict: Verdict)
      requires KeysHold(perKeyWindows, log, keyClock, perKeyRpm) && keyClock <= now && perKeyRpm > 0
      requires StoredKeys(perKeyWindows.Keys, called, cleanupLog, cleanupTime)
      modifies this`perKeyWindows, this`log, this`keyClock, this`called
      ensures KeysHold(perKeyWindows, log, keyClock, perKeyRpm) && keyClock == now
      ensures StoredKeys(perKeyWindows.Keys, called, cleanupLog, cleanupTime)
      ensures |called| <= |old(called)| + 1
      ensures verdict == NaiveVerdict(Bounds(), old(log), Call(Key(keyId), now, wall))
      ensures log == NaiveLog(Bounds(), old(log), Call(Key(keyId), now, wall))
    {
      hide Holds;
      ghost var call := Call(Key(keyId), now, wall);
      ghost var extended := NaiveLog(Bounds(), log, call);
      var window := WindowOf(perKeyWindows, keyId);
      CheckAgrees(Bounds(), log, call, window, keyClock);
      KeyCheckKeepsKeys(perKeyWindows, Bounds(), log, call, keyClock);
      var after;
      after, verdict := CheckWindow(window, now, wall, perKeyRpm);
      CallIsStored(perKeyWindows, keyId, after, called, cleanupLog, cleanupTime, |called|);
      perKeyWindows := perKeyWindows[keyId := after];
      called := called + {keyId};
      log := extended;
      keyClock := now;
    }
  }
  /** The keys held in memory: no more than those with an admission in the sixty seconds before the
      last clean-up, plus one for each call since. */
  lemma StorageIsBounded(limiter: RateLimiter)
    requires limiter.Valid()
    ensures var survivors := set k | k in limiter.perKeyWindows && Recent(limiter.cleanupLog, Key(k), limiter.cleanupTime) != [];
            |limiter.perKeyWindows| <= |survivors| + limiter.perKeyCheckCount % 1024 + 1
  {
    hide Holds, KeysHold, GlobalHolds;
    var survivors := set k | k in limiter.perKeyWindows && Recent(limiter.cleanupLog, Key(k), limiter.cleanupTime) != [];
    assert limiter.perKeyWindows.Keys <= survivors + limiter.called;
    SubsetIsNoLarger(limiter.perKeyWindows.Keys, survivors + limiter.called);
  }

  lemma {:induction false} SubsetIsNoLarger(a: set<int>, b: set<int>)
    requires a <= b
    ensures |a| <= |b|
  {
    if a != {} {
      EmptyOrHas(a);
      var x :| x in a;
      SubsetIsNoLarger(a - {x}, b - {x});
    }
  }

  ghost function Earliest(calls: seq<Call>): (t: int)
    ensures forall i :: 0 <= i < |calls| ==> t <= calls[i].now
  {
    if calls == [] then 0
    else
      var t, last := Earliest(calls[..|calls| - 1]), calls[|calls| - 1].now;
      if last < t then last else t
  }

  /** Any interleaving of global and per-key checks, with a clock that runs forward under each lock,
      is answered call by call as the limiter that keeps every admission would answer it. */
  method Serve(globalRpm: nat, perKeyRpm: nat, calls: seq<Call>) returns (verdicts: seq<Verdict>)
    requires Monotone(calls)
    ensures verdicts == Verdicts(Limits(globalRpm, perKeyRpm), calls)
  {
    hide Holds, KeysHold, StoredKeys, GlobalHolds, NaiveVerdict, NaiveLog;
    var limiter := new RateLimiter(globalRpm, perKeyRpm, Earliest(calls));
    ghost var limits := Limits(globalRpm, perKeyRpm);
    verdicts := [];
    for i := 0 to |calls|
      invariant limiter.Valid() && limiter.Bounds() == limits
      invariant limiter.log == LogAfter(limits, [], calls[..i])
      invariant verdicts == Verdicts(limits, calls[..i])
      invariant forall j :: i <= j < |calls| ==>
                  (if calls[j].scope.Global? then limiter.globalClock else limiter.keyClock) <= calls[j].now
    {
      var call := calls[i];
      assert calls[..i + 1] == calls[..i] + [call];
      LogAfterAppend(limits, calls[..i], call);
      var verdict;
      match call.scope {
        case Global => verdict := limiter.CheckGlobal(call.now, call.wall);
        case Key(id) => verdict := limiter.CheckPerKey(id, call.now, call.wall);
      }
      verdicts := verdicts + [verdict];
    }
    assert calls[..|calls|] == calls;
  }
}
