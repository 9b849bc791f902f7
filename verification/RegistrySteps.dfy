/** What single steps and whole runs of the registry system are sure to do: fetched values are cached and
    stay cached, hits are served, misses are fetched once, and updates take effect. */
module RegistrySteps {
  import opened Wrappers
  import opened RegistryModel
  import opened RegistryInvariant
  import opened RegistryTheorems

  // ---------------------------------------------------------------- lookups

  /** The process is about to look into a slot with a single-flight lookup. */
  predicate LooksUp(proc: Proc, slot: Slot) {
    match proc
    case Guarded(g, todo) => g.GReady? && todo != [] && todo[0] == Single(slot)
    case Unguarded(u, own) => u.UStart? && own == slot
    case Writer(_, _) => false
  }

  /** The process once it has its value and nothing more is to be done for it. */
  function Onward(proc: Proc): Proc {
    match proc
    case Guarded(g, todo) =>
      if todo != [] && (g.GReady? || g.GLead? || g.GWait?) then Guarded(GReady(g.seen), todo[1..]) else proc
    case Unguarded(_, slot) => Unguarded(UDone, slot)
    case Writer(_, _) => proc
  }

  /** The process once something it needs has failed: nothing is left to be done but to let go. */
  function GivenUp(proc: Proc): Proc {
    match proc
    case Guarded(g, todo) => if g.GLead? || g.GWait? then Guarded(GReady(g.seen), []) else proc
    case Unguarded(_, slot) => Unguarded(UDone, slot)
    case Writer(_, url) => Writer(WFailed, url)
  }

  predicate WaitsFor(proc: Proc, slot: Slot) {
    match proc
    case Guarded(g, todo) => g.GWait? && todo != [] && todo[0].slot == slot
    case Unguarded(u, own) => u.UWait? && own == slot
    case Writer(_, _) => false
  }

  /** A cached value is served as it is: nothing shared changes. */
  lemma HitIsServed(s: State, p: nat, slot: Slot, choice: Choice, t: State)
    requires p < |s.procs| && LooksUp(s.procs[p], slot) && slot in s.entries
    requires Next(s, Act(p, choice)) == Some(t)
    ensures t == s.(procs := s.procs[p := Onward(s.procs[p])])
  {
  }

  /** A miss without a flight starts one, and changes nothing else. */
  lemma MissStartsFlight(s: State, p: nat, slot: Slot, choice: Choice, t: State)
    requires p < |s.procs| && LooksUp(s.procs[p], slot) && slot !in s.entries && slot !in s.leaders
    requires Next(s, Act(p, choice)) == Some(t)
    ensures Leads(t.procs[p], slot) && t == s.(leaders := s.leaders[slot := p], procs := s.procs[p := t.procs[p]])
  {
  }

  /** A miss behind a flight waits for it. */
  lemma MissWaitsForFlight(s: State, p: nat, slot: Slot, choice: Choice, t: State)
    requires p < |s.procs| && LooksUp(s.procs[p], slot) && slot !in s.entries && slot in s.leaders
    requires Next(s, Act(p, choice)) == Some(t)
    ensures WaitsFor(t.procs[p], slot) && t == s.(procs := s.procs[p := t.procs[p]])
  {
  }

  /** And goes on only when the flight is over. */
  lemma WaiterGoesOnAfterFlight(s: State, p: nat, slot: Slot, choice: Choice)
    requires p < |s.procs| && WaitsFor(s.procs[p], slot) && s.installed != []
    ensures Next(s, Act(p, choice)).Some? <==> slot !in s.leaders
    ensures slot !in s.leaders && choice != Fail ==>
      Next(s, Act(p, choice)) == Some(s.(procs := s.procs[p := Onward(s.procs[p])]))
    ensures slot !in s.leaders && choice == Fail ==>
      Next(s, Act(p, choice)) == Some(s.(procs := s.procs[p := GivenUp(s.procs[p])]))
  {
  }

  /** In every reachable state at most one process leads a flight for a slot. */
  lemma OneFlightPerSlot(s0: State, actions: seq<Action>, s: State, p: nat, q: nat, slot: Slot)
    requires Reaches(s0, actions, s) && p < |s.procs| && q < |s.procs|
    requires Leads(s.procs[p], slot) && Leads(s.procs[q], slot)
    ensures p == q && slot in s.leaders && s.leaders[slot] == p
  {
    RunKeepsInv(s0, actions, s);
    assert Leading(s, p) && Leading(s, q);
  }

  // ---------------------------------------------------------------- fills

  /** A lock-first handler that leads a flight and fetches caches what it fetched, tagged with the live
      version, ends the flight and goes on; a value of the direct fetcher is cached just so. */
  lemma LeaderFillsCache(s: State, p: nat, t: State, choice: Choice)
    requires Inv(s) && p < |s.procs| && s.procs[p].Guarded? && s.procs[p].g.GLead?
    requires (choice == Go || choice == FromStartup) && Next(s, Act(p, choice)) == Some(t)
    ensures s.procs[p].todo != []
    ensures var slot, live := s.procs[p].todo[0].slot, |s.installed| - 1;
            t == s.(entries := s.entries[slot := Entry(if choice == Go then Provider(live) else Startup, live)],
                    leaders := s.leaders - {slot},
                    procs := s.procs[p := Onward(s.procs[p])])
  {
    assert Disciplined(s.procs[p]) && Sees(|s.installed|, s.procs[p]);
  }

  /** So does a handler that puts what it fetched for many slots at once. */
  lemma PutFillsCache(s: State, p: nat, slot: Slot, t: State, choice: Choice)
    requires Inv(s) && p < |s.procs| && s.procs[p].Guarded? && s.procs[p].g.GReady?
    requires s.procs[p].todo != [] && s.procs[p].todo[0] == Put(slot)
    requires (choice == Go || choice == FromStartup) && Next(s, Act(p, choice)) == Some(t)
    ensures var live := |s.installed| - 1;
            t == s.(entries := s.entries[slot := Entry(if choice == Go then Provider(live) else Startup, live)],
                    procs := s.procs[p := Onward(s.procs[p])])
  {
    assert Sees(|s.installed|, s.procs[p]);
  }

  /** A handler that let go of the lock with a value in hand caches it, tagged with the version it saw. */
  lemma LateFillIsCached(s: State, p: nat, v: nat, slot: Slot, choice: Choice, t: State)
    requires p < |s.procs| && s.procs[p] == Unguarded(UInsert(v), slot) && Next(s, Act(p, choice)) == Some(t)
    ensures t == s.(entries := s.entries[slot := Entry(Provider(v), |s.installed| - 1)],
                    leaders := s.leaders - {slot},
                    procs := s.procs[p := Onward(s.procs[p])])
  {
  }

  /** A fetch that fails leaves nothing in the caches and ends its flight, whether the handler fails with it
      or passes over that value. */
  lemma FailedFetchLeavesNothing(s: State, p: nat, slot: Slot, choice: Choice, t: State)
    requires Inv(s) && p < |s.procs| && Leads(s.procs[p], slot) && Next(s, Act(p, choice)) == Some(t)
    requires if s.procs[p].Guarded? then choice == Fail || choice == Skip else s.procs[p].u.UFetch? && choice == Fail
    ensures t.entries == s.entries && t.leaders == s.leaders - {slot} && !Leads(t.procs[p], slot)
    ensures t.procs[p] == if choice == Skip then Onward(s.procs[p]) else GivenUp(s.procs[p])
  {
    assert Disciplined(s.procs[p]);
  }

  /** Nothing is cached for a slot whose fetch failed in a request for many slots. */
  lemma SkippedPutLeavesNothing(s: State, p: nat, slot: Slot, choice: Choice, t: State)
    requires p < |s.procs| && s.procs[p].Guarded? && s.procs[p].g.GReady? && s.procs[p].todo != []
    requires s.procs[p].todo[0] == Get(slot) || (s.procs[p].todo[0] == Put(slot) && (choice == Skip || choice == Fail))
    requires Next(s, Act(p, choice)) == Some(t)
    ensures t == s.(procs := s.procs[p := Onward(s.procs[p])])
  {
  }

  /** The cache can forget any entry at any moment, and then that entry alone is gone. */
  lemma ForgettingRemovesOne(s: State, slot: Slot)
    requires s.installed != []
    ensures Next(s, Forget(slot)) == Some(s.(entries := map other | other in s.entries && other != slot :: s.entries[other]))
  {
    assert s.entries - {slot} == map other | other in s.entries && other != slot :: s.entries[other];
  }

  /** A cached value goes only if the cache forgets it or an update clears that cache, and is replaced only
      by a later fill. */
  lemma EntryPersists(s: State, a: Action, t: State, slot: Slot)
    requires Next(s, a) == Some(t) && slot in s.entries && (slot !in t.entries || t.entries[slot] != s.entries[slot])
    ensures a == Forget(slot)
         || (a.Act? && s.procs[a.pid].Writer? && s.procs[a.pid].w.WClear?
             && REGISTERED[s.procs[a.pid].w.next] == slot.cache && slot !in t.entries)
         || (a.Act? && !s.procs[a.pid].Writer? && slot in t.entries && t.entries[slot].filledAt == |s.installed| - 1)
  {
  }

  // ---------------------------------------------------------------- the lock

  /** The lock goes to the head of the queue as soon as no writer has it and, if the head is a writer, no
      reader has it either; so readers share it, and nobody overtakes. */
  lemma GrantMeans(s: State)
    requires Inv(s)
    ensures Next(s, Grant).Some? <==> s.queue != [] && s.writer == None && (s.queue[0].write ==> s.readers == {})
    ensures Next(s, Grant).Some? ==>
      var t, p := Next(s, Grant).value, s.queue[0].pid;
      && p < |s.procs| && t.queue == s.queue[1..]
      && (if s.queue[0].write then t.writer == Some(p) && t.readers == s.readers && HoldsWrite(t.procs[p])
          else t.readers == s.readers + {p} && t.writer == None && HoldsRead(t.procs[p]))
      && t == s.(queue := t.queue, writer := t.writer, readers := t.readers, procs := s.procs[p := t.procs[p]])
  {
    if s.queue != [] {
      var p := s.queue[0].pid;
      assert Waiting(s, p) && s.queue[0] == Request(p, s.queue[0].write) && s.queue[0] in s.queue;
    }
  }

  /** A writer is alone with the lock. */
  lemma WriterIsAlone(s0: State, actions: seq<Action>, s: State, p: nat, q: nat)
    requires Reaches(s0, actions, s) && p < |s.procs| && q < |s.procs| && p != q
    requires HoldsWrite(s.procs[p])
    ensures !HoldsRead(s.procs[q]) && !HoldsWrite(s.procs[q])
  {
    RunKeepsInv(s0, actions, s);
    assert LockHeld(s, p) && LockHeld(s, q);
  }

  lemma HoldersAreUnfinished(s: State, p: nat)
    requires Inv(s)
    ensures p in s.readers || s.writer == Some(p) || (s.queue != [] && s.queue[0].pid == p) ==>
      p < |s.procs| && !Finished(s.procs[p])
  {
    if p < |s.procs| {
      assert LockHeld(s, p) && Waiting(s, p);
      if s.queue != [] && s.queue[0].pid == p {
        assert s.queue[0] == Request(p, s.queue[0].write) && s.queue[0] in s.queue;
      }
    }
  }

  lemma LeadersAreUnfinished(s: State, slot: Slot)
    requires Inv(s) && slot in s.leaders
    ensures s.leaders[slot] < |s.procs| && !Finished(s.procs[s.leaders[slot]])
  {
    assert Leading(s, s.leaders[slot]);
  }

  /** When everything is finished the lock is free, nobody waits and no flight is left behind. */
  lemma FinishedIsAtRest(s0: State, actions: seq<Action>, s: State)
    requires Reaches(s0, actions, s) && forall p :: 0 <= p < |s.procs| ==> Finished(s.procs[p])
    ensures s.readers == {} && s.writer == None && s.queue == [] && s.leaders == map[]
  {
    hide Finished, Inv;
    RunKeepsInv(s0, actions, s);
    forall p: nat ensures p !in s.readers && s.writer != Some(p) {
      HoldersAreUnfinished(s, p);
    }
    if s.queue != [] {
      HoldersAreUnfinished(s, s.queue[0].pid);
    }
    forall slot ensures slot !in s.leaders {
      if slot in s.leaders {
        LeadersAreUnfinished(s, slot);
      }
    }
  }

  // ---------------------------------------------------------------- updates

  /** An update that was answered with success has installed its own provider. */
  lemma AnsweredUpdateIsInstalled(s0: State, actions: seq<Action>, s: State, p: nat, u: nat)
    requires Reaches(s0, actions, s) && p < |s.procs| && s.procs[p].Writer? && s.procs[p].w == WDone(u)
    ensures 1 <= u < |s.installed| && s.installed[u] == Install(s.procs[p].url, p)
  {
    RunKeepsInv(s0, actions, s);
    assert Signed(s, p);
  }

  predicate NotRefused(proc: Proc) {
    proc.Writer? && proc.url == "" ==> proc.w.WStart? || proc.w.WFailed?
  }

  lemma StepRefusesEmpty(proc: Proc, hit: bool, busy: bool, versions: nat, choice: Choice, e: Effect)
    requires ProcStep(proc, hit, busy, versions, choice) == Some(e) && NotRefused(proc)
    ensures NotRefused(e.proc)
  {
  }

  /** An update with an empty url gets nowhere. */
  lemma {:induction false} EmptyUrlIsRefused(s0: State, actions: seq<Action>, s: State)
    requires Reaches(s0, actions, s)
    ensures forall p :: 0 <= p < |s.procs| ==> NotRefused(s.procs[p])
    decreases |actions|
  {
    if actions == [] {
      assert forall p :: 0 <= p < |s.procs| ==> AtStart(s.procs[p]);
    } else {
      var before, a := Run(s0, actions[..|actions| - 1]).value, actions[|actions| - 1];
      EmptyUrlIsRefused(s0, actions[..|actions| - 1], before);
      forall p | 0 <= p < |s.procs| ensures NotRefused(s.procs[p]) {
        OneStepRefusesEmpty(before, a, s, p);
      }
    }
  }

  lemma OneStepRefusesEmpty(s: State, a: Action, t: State, p: nat)
    requires Next(s, a) == Some(t) && p < |t.procs| && forall q :: 0 <= q < |s.procs| ==> NotRefused(s.procs[q])
    ensures NotRefused(t.procs[p])
  {
    match a
    case Forget(_) =>
    case Grant =>
      assert NotRefused(s.procs[s.queue[0].pid]) && NotRefused(s.procs[p]);
    case Act(q, choice) =>
      var slot := SlotOf(s.procs[q]);
      assert NotRefused(s.procs[q]) && NotRefused(s.procs[p]);
      StepRefusesEmpty(s.procs[q], slot.Some? && slot.value in s.entries, slot.Some? && slot.value in s.leaders,
                       |s.installed|, choice, ActNext(s, q, choice).value);
  }

  /** A failing step of an update ends it, gives the lock back and changes neither setting nor provider. */
  lemma FailingUpdateStops(s: State, p: nat, t: State)
    requires Inv(s) && p < |s.procs| && s.procs[p].Writer? && (s.procs[p].w.WLoad? || s.procs[p].w.WHold?)
    requires Next(s, Act(p, Fail)) == Some(t)
    ensures t.procs == s.procs[p := Writer(WFailed, s.procs[p].url)] && t.writer != Some(p)
    ensures t.persisted == s.persisted && t.installed == s.installed && t.entries == s.entries && t.queue == s.queue
  {
    assert LockHeld(s, p);
  }

  // ---------------------------------------------------------------- a run that fills a lock-first cache

  const BY_TX: Slot := Slot(TradesByTx, 0)

  function Reading(g: GuardedAt, todo: seq<Access>): State {
    State([Install("a", 0)], "a", {}, None, [], map[], map[], [Guarded(g, todo)])
  }

  /** One request for the trades of a transaction: it takes the lock, looks, fetches, caches and lets go. */
  lemma LockFirstCacheIsFilled() returns (s0: State, actions: seq<Action>, s: State)
    ensures Reaches(s0, actions, s) && forall p :: 0 <= p < |s.procs| ==> Finished(s.procs[p])
    ensures LockedFirst(BY_TX.cache) && s.entries == map[BY_TX := Entry(Provider(0), 0)]
  {
    var todo := [Single(BY_TX)];
    s0 := Reading(GStart, todo);
    var s1 := Reading(GQueued, todo).(queue := [Request(0, false)]);
    var s2 := Reading(GReady(0), todo).(readers := {0});
    var s3 := Reading(GLead(0), todo).(readers := {0}, leaders := map[BY_TX := 0]);
    var s4 := Reading(GReady(0), []).(readers := {0}, entries := map[BY_TX := Entry(Provider(0), 0)]);
    s := Reading(GDone, []).(entries := map[BY_TX := Entry(Provider(0), 0)]);
    FirstSteps(todo, s0, s1, s2);
    LookAndFill(todo, s2, s3, s4);
    assert s4.readers - {0} == {} && s4.procs[0 := Guarded(GDone, [])] == s.procs;
    assert Next(s4, Act(0, Go)) == Some(s);
    assert Run(s0, []) == Some(s0);
    OneMoreStep(s0, s0, Act(0, Go), s1);
    OneMoreStep(s0, s1, Grant, s2);
    OneMoreStep(s0, s2, Act(0, Go), s3);
    OneMoreStep(s0, s3, Act(0, Go), s4);
    OneMoreStep(s0, s4, Act(0, Go), s);
    actions :| Run(s0, actions) == Some(s);
  }

  lemma FirstSteps(todo: seq<Access>, s0: State, s1: State, s2: State)
    requires s0 == Reading(GStart, todo) && s1 == Reading(GQueued, todo).(queue := [Request(0, false)])
    requires s2 == Reading(GReady(0), todo).(readers := {0})
    ensures Next(s0, Act(0, Go)) == Some(s1) && Next(s1, Grant) == Some(s2)
  {
    assert s0.procs[0 := Guarded(GQueued, todo)] == s1.procs && s0.queue + [Request(0, false)] == s1.queue;
    assert s1.procs[0 := Guarded(GReady(0), todo)] == s2.procs && s1.queue[1..] == [] && s1.readers + {0} == {0};
  }

  lemma LookAndFill(todo: seq<Access>, s2: State, s3: State, s4: State)
    requires todo == [Single(BY_TX)] && s2 == Reading(GReady(0), todo).(readers := {0})
    requires s3 == Reading(GLead(0), todo).(readers := {0}, leaders := map[BY_TX := 0])
    requires s4 == Reading(GReady(0), []).(readers := {0}, entries := map[BY_TX := Entry(Provider(0), 0)])
    ensures Next(s2, Act(0, Go)) == Some(s3) && Next(s3, Act(0, Go)) == Some(s4)
  {
    assert s2.procs[0 := Guarded(GLead(0), todo)] == s3.procs && s2.leaders[BY_TX := 0] == s3.leaders;
    assert todo[1..] == [] && s3.procs[0 := Guarded(GReady(0), [])] == s4.procs;
    assert s3.leaders - {BY_TX} == map[] && s3.entries[BY_TX := Entry(Provider(0), 0)] == s4.entries;
  }
}
