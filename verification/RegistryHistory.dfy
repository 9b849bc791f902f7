/** Where a stale value in an unguarded cache comes from, told over the whole run that led to it. */
module RegistryHistory {
  import opened Wrappers
  import opened RegistryModel
  import opened RegistryInvariant
  import opened RegistryTheorems

  /** Step `i` of the run installs version `u` while process `p` has fetched a value for `slot` from
      version `v`, has let go of the lock, and has not inserted the value yet. */
  predicate SwapsUnder(s0: State, actions: seq<Action>, i: nat, p: nat, slot: Slot, v: nat, u: nat) {
    && i < |actions|
    && var before, after := Run(s0, actions[..i]), Run(s0, actions[..i + 1]);
    && before.Some? && after.Some?
    && |before.value.installed| == u && |after.value.installed| == u + 1
    && p < |before.value.procs| && before.value.procs[p] == Unguarded(UInsert(v), slot)
  }

  ghost predicate InFlightAtSwap(s0: State, actions: seq<Action>, p: nat, slot: Slot, v: nat, u: nat) {
    exists i: nat :: SwapsUnder(s0, actions, i, p, slot, v, u)
  }

  ghost predicate InFlightThrough(s0: State, actions: seq<Action>, p: nat, slot: Slot, v: nat, last: int) {
    forall u :: v < u <= last ==> InFlightAtSwap(s0, actions, p, slot, v, u)
  }

  lemma LongerRun(s0: State, actions: seq<Action>, a: Action, p: nat, slot: Slot, v: nat, last: int)
    requires InFlightThrough(s0, actions, p, slot, v, last)
    ensures InFlightThrough(s0, actions + [a], p, slot, v, last)
  {
    forall u | v < u <= last ensures InFlightAtSwap(s0, actions + [a], p, slot, v, u) {
      assert InFlightAtSwap(s0, actions, p, slot, v, u);
      var i: nat :| SwapsUnder(s0, actions, i, p, slot, v, u);
      assert (actions + [a])[..i] == actions[..i] && (actions + [a])[..i + 1] == actions[..i + 1];
      assert SwapsUnder(s0, actions + [a], i, p, slot, v, u);
    }
  }

  ghost predicate FetchesExplained(s0: State, actions: seq<Action>, s: State) {
    forall p :: 0 <= p < |s.procs| && s.procs[p].Unguarded? && s.procs[p].u.UInsert? ==>
      InFlightThrough(s0, actions, p, s.procs[p].slot, s.procs[p].u.seen, |s.installed| - 1)
  }

  ghost predicate Explained(s0: State, actions: seq<Action>, slot: Slot, e: Entry) {
    e.source.Provider? ==> exists p: nat :: InFlightThrough(s0, actions, p, slot, e.source.version, e.filledAt)
  }

  ghost predicate EntriesExplained(s0: State, actions: seq<Action>, s: State) {
    forall slot :: slot in s.entries ==> Explained(s0, actions, slot, s.entries[slot])
  }

  lemma InsertsWhatItFetched(proc: Proc, hit: bool, busy: bool, versions: nat, choice: Choice, e: Effect)
    requires ProcStep(proc, hit, busy, versions, choice) == Some(e) && Disciplined(proc) && Sees(versions, proc)
    requires e.cache.Insert? && e.cache.source.Provider?
    ensures e.cache.source.version == versions - 1
         || proc == Unguarded(UInsert(e.cache.source.version), e.cache.slot)
  {
  }

  lemma StartsHolding(proc: Proc, hit: bool, busy: bool, versions: nat, choice: Choice, e: Effect)
    requires ProcStep(proc, hit, busy, versions, choice) == Some(e) && Sees(versions, proc)
    requires e.proc.Unguarded? && e.proc.u.UInsert?
    ensures e.proc.u.seen == versions - 1 && e.install.None?
  {
  }

  lemma FetchStaysExplained(s0: State, actions: seq<Action>, s: State, a: Action, t: State, p: nat)
    requires Run(s0, actions) == Some(s) && Inv(s) && Next(s, a) == Some(t)
    requires FetchesExplained(s0, actions, s)
    requires p < |t.procs| && t.procs[p].Unguarded? && t.procs[p].u.UInsert?
    ensures InFlightThrough(s0, actions + [a], p, t.procs[p].slot, t.procs[p].u.seen, |t.installed| - 1)
  {
    hide Inv, Run;
    var slot, v := t.procs[p].slot, t.procs[p].u.seen;
    if s.procs[p] == t.procs[p] {
      LongerRun(s0, actions, a, p, slot, v, |s.installed| - 1);
      RunExtend(s0, actions, s, a);
      if |t.installed| == |s.installed| + 1 {
        assert (actions + [a])[..|actions|] == actions && (actions + [a])[..|actions| + 1] == actions + [a];
        assert SwapsUnder(s0, actions + [a], |actions|, p, slot, v, |s.installed|);
      }
    } else {
      JustFetched(s, a, t, p);
    }
  }

  lemma JustFetched(s: State, a: Action, t: State, p: nat)
    requires Inv(s) && Next(s, a) == Some(t)
    requires p < |t.procs| && p < |s.procs| && s.procs[p] != t.procs[p] && t.procs[p].Unguarded? && t.procs[p].u.UInsert?
    ensures t.procs[p].u.seen == |t.installed| - 1
  {
    match a
    case Grant =>
    case Act(q, choice) =>
      var slot := SlotOf(s.procs[q]);
      assert q == p && Sees(|s.installed|, s.procs[p]);
      StartsHolding(s.procs[q], slot.Some? && slot.value in s.entries, slot.Some? && slot.value in s.leaders,
                    |s.installed|, choice, ActNext(s, q, choice).value);
  }

  lemma EntryStaysExplained(s0: State, actions: seq<Action>, s: State, a: Action, t: State, slot: Slot)
    requires Run(s0, actions) == Some(s) && Inv(s) && Next(s, a) == Some(t)
    requires FetchesExplained(s0, actions, s) && EntriesExplained(s0, actions, s)
    requires slot in t.entries
    ensures Explained(s0, actions + [a], slot, t.entries[slot])
  {
    var e := t.entries[slot];
    if e.source.Provider? {
      if slot in s.entries && s.entries[slot] == e {
        assert Explained(s0, actions, slot, e);
        var p: nat :| InFlightThrough(s0, actions, p, slot, e.source.version, e.filledAt);
        LongerRun(s0, actions, a, p, slot, e.source.version, e.filledAt);
      } else {
        var p := JustInserted(s, a, t, slot);
        if s.procs[p] == Unguarded(UInsert(e.source.version), slot) {
          LongerRun(s0, actions, a, p, slot, e.source.version, e.filledAt);
        } else {
          assert InFlightThrough(s0, actions + [a], p, slot, e.source.version, e.filledAt);
        }
      }
    }
  }

  lemma JustInserted(s: State, a: Action, t: State, slot: Slot) returns (p: nat)
    requires Inv(s) && Next(s, a) == Some(t)
    requires slot in t.entries && t.entries[slot].source.Provider? && !(slot in s.entries && s.entries[slot] == t.entries[slot])
    ensures p < |s.procs| && t.entries[slot].filledAt == |s.installed| - 1
    ensures t.entries[slot].source.version == t.entries[slot].filledAt
         || s.procs[p] == Unguarded(UInsert(t.entries[slot].source.version), slot)
  {
    match a
    case Act(q, choice) =>
      p := q;
      var look := SlotOf(s.procs[q]);
      assert Disciplined(s.procs[q]) && Sees(|s.installed|, s.procs[q]);
      InsertsWhatItFetched(s.procs[q], look.Some? && look.value in s.entries, look.Some? && look.value in s.leaders,
                           |s.installed|, choice, ActNext(s, q, choice).value);
  }

  lemma {:induction false} RunExplained(s0: State, actions: seq<Action>, s: State)
    requires Reaches(s0, actions, s)
    ensures FetchesExplained(s0, actions, s) && EntriesExplained(s0, actions, s)
    decreases |actions|
  {
    hide Inv, Next;
    if actions == [] {
      assert forall p :: 0 <= p < |s.procs| ==> AtStart(s.procs[p]);
    } else {
      var earlier, a := actions[..|actions| - 1], actions[|actions| - 1];
      var before := Run(s0, earlier).value;
      RunExplained(s0, earlier, before);
      RunKeepsInv(s0, earlier, before);
      assert earlier + [a] == actions;
      forall p | 0 <= p < |s.procs| && s.procs[p].Unguarded? && s.procs[p].u.UInsert?
        ensures InFlightThrough(s0, actions, p, s.procs[p].slot, s.procs[p].u.seen, |s.installed| - 1)
      {
        FetchStaysExplained(s0, earlier, before, a, s, p);
      }
      forall slot | slot in s.entries ensures Explained(s0, actions, slot, s.entries[slot]) {
        EntryStaysExplained(s0, earlier, before, a, s, slot);
      }
    }
  }

  lemma {:induction false} RunSplits(s0: State, actions: seq<Action>, i: nat)
    requires i <= |actions| && Run(s0, actions).Some?
    ensures Run(s0, actions[..i]).Some?
    ensures |Run(s0, actions[..i]).value.installed| <= |Run(s0, actions).value.installed|
    decreases |actions|
  {
    if i == |actions| {
      assert actions[..i] == actions;
    } else {
      RunSplits(s0, actions[..|actions| - 1], i);
      assert actions[..|actions| - 1][..i] == actions[..i];
    }
  }

  /** A value in flight at a swap is older than what is live from then on. */
  lemma FlightIsBehind(s0: State, actions: seq<Action>, s: State, p: nat, slot: Slot, v: nat, u: nat)
    requires Reaches(s0, actions, s) && InFlightAtSwap(s0, actions, p, slot, v, u)
    ensures v < u < |s.installed|
  {
    hide Inv;
    var i: nat :| SwapsUnder(s0, actions, i, p, slot, v, u);
    RunSplits(s0, actions, i);
    RunSplits(s0, actions, i + 1);
    var before := Run(s0, actions[..i]).value;
    RunKeepsInv(s0, actions[..i], before);
    SeenInFlight(before, p, v, slot);
  }

  lemma SeenInFlight(s: State, p: nat, v: nat, slot: Slot)
    requires Inv(s) && p < |s.procs| && s.procs[p] == Unguarded(UInsert(v), slot)
    ensures v < |s.installed|
  {
    assert Sees(|s.installed|, s.procs[p]);
  }

  /** When all updates are done, a cached value is behind the live provider if and only if some fill of
      its slot had fetched that version and was in flight at a swap; one such fill was then in flight at
      every swap the value has missed. */
  lemma StaleIffInFlight(s0: State, actions: seq<Action>, s: State, slot: Slot)
    requires Reaches(s0, actions, s) && UpdatesFinished(s)
    requires slot in s.entries && s.entries[slot].source.Provider?
    ensures var v := s.entries[slot].source.version;
            v < |s.installed| - 1 <==> exists p: nat, u: nat :: InFlightAtSwap(s0, actions, p, slot, v, u)
    ensures var e := s.entries[slot];
            && e.filledAt == |s.installed| - 1
            && exists p: nat :: InFlightThrough(s0, actions, p, slot, e.source.version, e.filledAt)
  {
    var e := s.entries[slot];
    QuietCaches(s0, actions, s, slot);
    RunExplained(s0, actions, s);
    assert Explained(s0, actions, slot, e);
    var p: nat :| InFlightThrough(s0, actions, p, slot, e.source.version, e.filledAt);
    if e.source.version < |s.installed| - 1 {
      assert InFlightAtSwap(s0, actions, p, slot, e.source.version, e.source.version + 1);
    }
    forall q: nat, u: nat | InFlightAtSwap(s0, actions, q, slot, e.source.version, u)
      ensures e.source.version < |s.installed| - 1
    {
      FlightIsBehind(s0, actions, s, q, slot, e.source.version, u);
    }
  }

  // ---------------------------------------------------------------- a run that leaves a stale value

  const DETAIL: Slot := Slot(OrderDetail, 0)

  /** One request for an order's detail and one registry update. */
  function Both(u: UnguardedAt, w: WriterAt): seq<Proc> {
    [Unguarded(u, DETAIL), Writer(w, "b")]
  }

  function Beginning(): State {
    State([Install("a", 0)], "a", {}, None, [], map[], map[], Both(UStart, WStart))
  }

  lemma HandlerMoves(s: State, u: UnguardedAt, w: WriterAt, next: UnguardedAt, e: Effect)
    requires s.procs == Both(u, w) && s.installed != []
    requires UnguardedStep(u, DETAIL, DETAIL in s.entries, DETAIL in s.leaders, Go) == Some(e)
    requires e.proc == Unguarded(next, DETAIL)
    ensures Next(s, Act(0, Go)) == Some(Apply(s, 0, e).(procs := Both(next, w)))
  {
    assert s.procs[0 := e.proc] == Both(next, w);
  }

  lemma WriterMoves(s: State, u: UnguardedAt, w: WriterAt, next: WriterAt, e: Effect)
    requires s.procs == Both(u, w) && s.installed != []
    requires WriterStep(w, "b", |s.installed|, Go) == Some(e)
    requires e.proc == Writer(next, "b")
    ensures Next(s, Act(1, Go)) == Some(Apply(s, 1, e).(procs := Both(u, next)))
  {
    assert s.procs[1 := e.proc] == Both(u, next);
  }

  ghost predicate Reached(s: State) {
    LeadsTo(Beginning(), s)
  }

  lemma ReachedNext(s: State, a: Action, t: State)
    requires Reached(s) && Next(s, a) == Some(t)
    ensures Reached(t)
  {
    OneMoreStep(Beginning(), s, a, t);
  }

  lemma HandlerGoes(s: State, u: UnguardedAt, w: WriterAt, next: UnguardedAt, e: Effect, t: State)
    requires Reached(s) && s.procs == Both(u, w) && s.installed != []
    requires UnguardedStep(u, DETAIL, DETAIL in s.entries, DETAIL in s.leaders, Go) == Some(e)
    requires e.proc == Unguarded(next, DETAIL) && t == Apply(s, 0, e).(procs := Both(next, w))
    ensures Reached(t)
  {
    HandlerMoves(s, u, w, next, e);
    ReachedNext(s, Act(0, Go), t);
  }

  lemma WriterGoes(s: State, u: UnguardedAt, w: WriterAt, next: WriterAt, e: Effect, t: State)
    requires Reached(s) && s.procs == Both(u, w) && s.installed != []
    requires WriterStep(w, "b", |s.installed|, Go) == Some(e)
    requires e.proc == Writer(next, "b") && t == Apply(s, 1, e).(procs := Both(u, next))
    ensures Reached(t)
  {
    WriterMoves(s, u, w, next, e);
    ReachedNext(s, Act(1, Go), t);
  }

  /** The handler leads the flight, fetches, and lets go of the lock; it is about to insert. */
  lemma HandlerFetches()
    ensures Reached(Fetched(WStart))
  {
    var s := Beginning();
    var s1 := s.(leaders := map[DETAIL := 0], procs := Both(ULead, WStart));
    var s2 := s1.(queue := [Request(0, false)], procs := Both(UQueued, WStart));
    var s3 := s1.(readers := {0}, procs := Both(UFetch(0), WStart));
    assert Run(s, []) == Some(s);
    assert map[][DETAIL := 0 as nat] == map[DETAIL := 0];
    HandlerGoes(s, UStart, WStart, ULead, Effect(Unguarded(ULead, DETAIL), lead := TakeLead(DETAIL)), s1);
    assert s1.queue + [Request(0, false)] == s2.queue;
    HandlerGoes(s1, ULead, WStart, UQueued, Effect(Unguarded(UQueued, DETAIL), enqueue := Some(false)), s2);
    assert s2.procs[0 := Unguarded(UFetch(0), DETAIL)] == s3.procs;
    assert s2.queue[1..] == [] && s2.readers + {0} == {0};
    ReachedNext(s2, Grant, s3);
    assert s3.readers - {0} == {};
    HandlerGoes(s3, UFetch(0), WStart, UInsert(0), Effect(Unguarded(UInsert(0), DETAIL), lock := ReleaseRead),
                Fetched(WStart));
  }

  /** The handler has fetched from the first provider; the update is at `w` and has not swapped yet. */
  function Fetched(w: WriterAt): State {
    Beginning().(leaders := map[DETAIL := 0], procs := Both(UInsert(0), w))
  }

  function Swapped(w: WriterAt): State {
    Fetched(w).(installed := [Install("a", 0), Install("b", 1)], persisted := "b")
  }

  /** Meanwhile the update reads the old path and queues for the lock. */
  lemma UpdateQueues()
    ensures Reached(Fetched(WQueued).(queue := [Request(1, true)]))
  {
    var s := Fetched(WStart);
    var s1 := Fetched(WPathQueued).(queue := [Request(1, false)]);
    var s2 := Fetched(WPath).(readers := {1});
    HandlerFetches();
    assert s.queue + [Request(1, false)] == s1.queue;
    WriterGoes(s, UInsert(0), WStart, WPathQueued, Effect(Writer(WPathQueued, "b"), enqueue := Some(false)), s1);
    assert s1.procs[1 := Writer(WPath, "b")] == s2.procs;
    assert s1.queue[1..] == [] && s1.readers + {1} == {1};
    ReachedNext(s1, Grant, s2);
    assert s2.readers - {1} == {};
    WriterGoes(s2, UInsert(0), WPath, WLoad, Effect(Writer(WLoad, "b"), lock := ReleaseRead), Fetched(WLoad));
    assert Fetched(WLoad).queue + [Request(1, true)] == [Request(1, true)];
    WriterGoes(Fetched(WLoad), UInsert(0), WLoad, WQueued, Effect(Writer(WQueued, "b"), enqueue := Some(true)),
               Fetched(WQueued).(queue := [Request(1, true)]));
  }

  /** Nothing stands in its way: it takes the lock, persists the setting, swaps and lets go. */
  lemma UpdatePersists()
    ensures Reached(Fetched(WPersisted).(writer := Some(1), persisted := "b"))
  {
    var s := Fetched(WQueued).(queue := [Request(1, true)]);
    var s1 := Fetched(WHold).(writer := Some(1));
    UpdateQueues();
    assert s.procs[1 := Writer(WHold, "b")] == s1.procs;
    assert s.queue[1..] == [];
    ReachedNext(s, Grant, s1);
    WriterGoes(s1, UInsert(0), WHold, WPersisted, Effect(Writer(WPersisted, "b"), persist := Some("b")),
               Fetched(WPersisted).(writer := Some(1), persisted := "b"));
  }

  lemma UpdateSwaps()
    ensures Reached(Swapped(WClear(1, 0)))
  {
    var s2 := Fetched(WPersisted).(writer := Some(1), persisted := "b");
    var s3 := Swapped(WSwapped(1)).(writer := Some(1));
    var swap := Effect(Writer(WSwapped(1), "b"), install := Some("b"));
    var release := Effect(Writer(WClear(1, 0), "b"), lock := ReleaseWrite);
    UpdatePersists();
    assert s2.installed + [Install("b", 1)] == s3.installed;
    WriterGoes(s2, UInsert(0), WPersisted, WSwapped(1), swap, s3);
    WriterGoes(s3, UInsert(0), WSwapped(1), WClear(1, 0), release, Swapped(WClear(1, 0)));
  }

  /** It clears one cache after the other, and all of them are empty anyway. */
  lemma {:induction false} UpdateClears(n: nat)
    requires n <= |REGISTERED|
    ensures Reached(Swapped(WClear(1, n)))
  {
    hide Reached;
    if n == 0 {
      UpdateSwaps();
    } else {
      var s, t := Swapped(WClear(1, n - 1)), Swapped(WClear(1, n));
      UpdateClears(n - 1);
      var e := Effect(Writer(WClear(1, n), "b"), cache := Clear(REGISTERED[n - 1]));
      assert Apply(s, 1, e).entries.Keys <= s.entries.Keys;
      WriterGoes(s, UInsert(0), WClear(1, n - 1), WClear(1, n), e, t);
    }
  }

  /** What is left in the end: the value of the first provider, inserted under the second. */
  function Left(): State {
    Swapped(WDone(1)).(leaders := map[], entries := map[DETAIL := Entry(Provider(0), 1)], procs := Both(UDone, WDone(1)))
  }

  lemma UpdateFinishes()
    ensures Reached(Swapped(WDone(1)))
  {
    UpdateClears(|REGISTERED|);
    WriterGoes(Swapped(WClear(1, |REGISTERED|)), UInsert(0), WClear(1, |REGISTERED|), WDone(1),
               Effect(Writer(WDone(1), "b")), Swapped(WDone(1)));
  }

  lemma HandlerInserts()
    ensures Reached(Left())
  {
    hide Reached;
    var u := Swapped(WDone(1));
    UpdateFinishes();
    assert u.leaders - {DETAIL} == map[];
    assert u.entries[DETAIL := Entry(Provider(0), 1)] == Left().entries;
    HandlerGoes(u, UInsert(0), WDone(1), UDone,
                Effect(Unguarded(UDone, DETAIL), lead := DropLead(DETAIL), cache := Insert(DETAIL, Provider(0))), Left());
  }

  /** Taking the lock only inside the fetch does let a stale value survive a finished update: here the
      handler inserts what it fetched before the swap after every cache was cleared. */
  lemma UnguardedCanStayStale() returns (s0: State, actions: seq<Action>, s: State)
    ensures Reaches(s0, actions, s) && UpdatesFinished(s) && |s.installed| == 2
    ensures DETAIL in s.entries && s.entries[DETAIL] == Entry(Provider(0), 1)
    ensures forall p :: 0 <= p < |s.procs| ==> Finished(s.procs[p])
  {
    hide Run;
    s0, s := Beginning(), Left();
    HandlerInserts();
    actions :| Run(s0, actions) == Some(s);
  }
}
