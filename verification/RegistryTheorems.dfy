/** What the invariant means to a client of the API and to its operator. */
module RegistryTheorems {
  import opened Wrappers
  import opened RegistryModel
  import opened RegistryInvariant

  ghost predicate Reaches(s0: State, actions: seq<Action>, s: State) {
    Init(s0) && Run(s0, actions) == Some(s)
  }

  lemma RunExtend(s0: State, actions: seq<Action>, s: State, a: Action)
    requires Run(s0, actions) == Some(s)
    ensures Run(s0, actions + [a]) == Next(s, a)
  {
    assert (actions + [a])[..|actions|] == actions;
  }

  ghost predicate LeadsTo(s0: State, s: State) {
    exists actions :: Run(s0, actions) == Some(s)
  }

  lemma OneMoreStep(s0: State, s: State, a: Action, t: State)
    requires LeadsTo(s0, s) && Next(s, a) == Some(t)
    ensures LeadsTo(s0, t)
  {
    var actions :| Run(s0, actions) == Some(s);
    RunExtend(s0, actions, s, a);
  }

  // ---------------------------------------------------------------- freshness

  /** In every interleaving, a value in a cache that is only reached under the lock is behind the live
      provider only with respect to installers that have not yet cleared that cache. */
  lemma StaleOnlyUntilCleared(s0: State, actions: seq<Action>, s: State, slot: Slot)
    requires Reaches(s0, actions, s)
    requires LockedFirst(slot.cache) && slot in s.entries && s.entries[slot].source.Provider?
    ensures s.entries[slot].source.version < |s.installed|
    ensures forall u :: s.entries[slot].source.version < u < |s.installed| ==> !HasCleared(s, u, slot.cache)
  {
    RunKeepsInv(s0, actions, s);
    assert EntryOk(s, slot, s.entries[slot]);
  }

  /** Once an update has been answered, no handler that takes the lock first is served anything older
      from a cache. */
  lemma AnsweredUpdateIsSeen(s0: State, actions: seq<Action>, s: State, p: nat, u: nat, writer: nat)
    requires Reaches(s0, actions, s)
    requires p < |s.procs| && s.procs[p].Guarded? && s.procs[p].g.GReady? && s.procs[p].todo != []
    requires writer < |s.procs| && s.procs[writer].Writer? && s.procs[writer].w == WDone(u)
    ensures var slot := s.procs[p].todo[0].slot;
            slot in s.entries && s.entries[slot].source.Provider? ==> s.entries[slot].source.version >= u
  {
    RunKeepsInv(s0, actions, s);
    var slot := s.procs[p].todo[0].slot;
    assert Disciplined(s.procs[p]) && Signed(s, writer);
    if slot in s.entries && s.entries[slot].source.Provider? {
      StaleOnlyUntilCleared(s0, actions, s, slot);
      if s.entries[slot].source.version < u {
        assert HasCleared(s, u, slot.cache);
      }
    }
  }

  ghost predicate UpdatesFinished(s: State) {
    forall p :: 0 <= p < |s.procs| && s.procs[p].Writer? ==> Finished(s.procs[p])
  }

  lemma FinishedUpdatesCleared(s: State, u: nat, c: Cache)
    requires Inv(s) && UpdatesFinished(s) && 1 <= u < |s.installed|
    ensures HasCleared(s, u, c)
  {
    assert Authored(s, u);
    assert Finished(s.procs[s.installed[u].author]);
  }

  /** When no update is under way, every cached value was inserted while the live version was live, and
      where the lock is held from the first look on, it is of the live version. */
  lemma QuietCaches(s0: State, actions: seq<Action>, s: State, slot: Slot)
    requires Reaches(s0, actions, s) && UpdatesFinished(s)
    requires slot in s.entries && s.entries[slot].source.Provider?
    ensures s.entries[slot].filledAt == |s.installed| - 1
    ensures LockedFirst(slot.cache) ==> s.entries[slot].source.version == |s.installed| - 1
  {
    RunKeepsInv(s0, actions, s);
    var e := s.entries[slot];
    assert EntryOk(s, slot, e);
    if e.filledAt < |s.installed| - 1 {
      FinishedUpdatesCleared(s, e.filledAt + 1, slot.cache);
    }
  }

  // ---------------------------------------------------------------- the setting and the provider

  /** Whenever nobody holds the lock for writing, the stored registry url is the live provider's. */
  lemma SettingMatchesProvider(s0: State, actions: seq<Action>, s: State)
    requires Reaches(s0, actions, s) && s.writer.None?
    ensures s.installed != [] && s.persisted == s.installed[|s.installed| - 1].url
  {
    RunKeepsInv(s0, actions, s);
  }

  /** A failed update installed nothing, and the setting is never left to one. */
  lemma FailedUpdateChangesNothing(s0: State, actions: seq<Action>, s: State, p: nat)
    requires Reaches(s0, actions, s)
    requires p < |s.procs| && s.procs[p].Writer? && s.procs[p].w.WFailed?
    ensures forall u :: 1 <= u < |s.installed| ==> s.installed[u].author != p
    ensures s.installed != []
    ensures s.persisted == s.installed[|s.installed| - 1].url
         || exists q :: 0 <= q < |s.procs| && q != p && BetweenPersistAndSwap(s.procs[q]) && s.persisted == s.procs[q].url
  {
    RunKeepsInv(s0, actions, s);
    forall u | 1 <= u < |s.installed| ensures s.installed[u].author != p {
      assert Authored(s, u);
    }
  }

  // ---------------------------------------------------------------- progress

  predicate CanAct(s: State, p: nat) {
    p < |s.procs| && ActNext(s, p, Go).Some?
  }

  /** Someone other than the cache's own forgetting can move. */
  predicate CanMove(s: State) {
    CanGrant(s) || exists p :: 0 <= p < |s.procs| && CanAct(s, p)
  }

  /** A process in or behind no flight and outside the queue can always move. */
  lemma OthersCanAct(s: State, p: nat)
    requires Inv(s) && p < |s.procs| && !Finished(s.procs[p])
    requires !Queued(s.procs[p], false) && !Queued(s.procs[p], true)
    requires var slot := SlotOf(s.procs[p]);
             slot.Some? && slot.value in s.leaders ==> !IsWaiting(s.procs[p])
    ensures CanAct(s, p)
  {
    assert Disciplined(s.procs[p]);
  }

  predicate IsWaiting(proc: Proc) {
    match proc
    case Guarded(g, _) => g.GWait?
    case Unguarded(u, _) => u.UWait?
    case Writer(_, _) => false
  }

  lemma LeaderOf(s: State, slot: Slot) returns (l: nat)
    requires Inv(s) && slot in s.leaders
    ensures l < |s.procs| && Leads(s.procs[l], slot)
  {
    l := s.leaders[slot];
    assert Leading(s, l);
  }

  /** A handler that waits with the read lock in hand waits for one that already has it too. */
  lemma GuardedWaitsOnHolder(s: State, p: nat)
    requires Inv(s) && p < |s.procs| && s.procs[p].Guarded? && s.procs[p].g.GWait?
    ensures s.procs[p].todo != []
    ensures var slot := s.procs[p].todo[0].slot;
            slot in s.leaders ==>
              && s.leaders[slot] < |s.procs|
              && s.procs[s.leaders[slot]].Guarded? && s.procs[s.leaders[slot]].g.GLead?
              && s.leaders[slot] in s.readers
  {
    assert Disciplined(s.procs[p]);
    var slot := s.procs[p].todo[0].slot;
    if slot in s.leaders {
      var l := LeaderOf(s, slot);
      assert Leading(s, s.leaders[slot]) && Disciplined(s.procs[s.leaders[slot]]) && LockHeld(s, s.leaders[slot]);
    }
  }

  lemma HolderLeadsToMove(s: State, p: nat)
    requires Inv(s) && p < |s.procs| && (HoldsRead(s.procs[p]) || HoldsWrite(s.procs[p]))
    ensures CanMove(s)
  {
    if s.procs[p].Guarded? && s.procs[p].g.GWait? {
      GuardedWaitsOnHolder(s, p);
      var slot := s.procs[p].todo[0].slot;
      if slot in s.leaders {
        OthersCanAct(s, s.leaders[slot]);
      } else {
        OthersCanAct(s, p);
      }
    } else {
      OthersCanAct(s, p);
    }
  }

  lemma QueueMoves(s: State, p: nat, write: bool)
    requires Inv(s) && p < |s.procs| && Queued(s.procs[p], write)
    ensures CanMove(s)
  {
    assert Waiting(s, p);
    assert Request(p, write) in s.queue;
    if s.writer.Some? {
      assert LockHeld(s, s.writer.value);
      HolderLeadsToMove(s, s.writer.value);
    } else if s.queue[0].write && s.readers != {} {
      var r :| r in s.readers;
      assert LockHeld(s, r);
      HolderLeadsToMove(s, r);
    }
  }

  /** No reachable state is stuck: while any process is unfinished, some process can move. */
  lemma NoDeadlock(s0: State, actions: seq<Action>, s: State, p: nat)
    requires Reaches(s0, actions, s)
    requires p < |s.procs| && !Finished(s.procs[p])
    ensures CanMove(s)
  {
    RunKeepsInv(s0, actions, s);
    var proc, slot := s.procs[p], SlotOf(s.procs[p]);
    if Queued(proc, false) {
      QueueMoves(s, p, false);
    } else if Queued(proc, true) {
      QueueMoves(s, p, true);
    } else if IsWaiting(proc) && slot.Some? && slot.value in s.leaders {
      var l := LeaderOf(s, slot.value);
      assert Disciplined(s.procs[l]);
      if Queued(s.procs[l], false) {
        QueueMoves(s, l, false);
      } else {
        OthersCanAct(s, l);
      }
    } else {
      OthersCanAct(s, p);
    }
  }

  /** How far a process is from its end. */
  function Rank(proc: Proc): nat {
    match proc
    case Guarded(g, todo) => (
      match g
      case GStart => 3 * |todo| + 5
      case GQueued => 3 * |todo| + 4
      case GReady(_) => 3 * |todo| + 3
      case GLead(_) => 3 * |todo| + 2
      case GWait(_) => 3 * |todo| + 1
      case GDone => 0)
    case Unguarded(u, _) => (
      match u
      case UStart => 5
      case ULead => 4
      case UQueued => 3
      case UFetch(_) => 2
      case UInsert(_) => 1
      case UWait => 1
      case UDone => 0)
    case Writer(w, _) => (
      match w
      case WStart => 18
      case WPathQueued => 17
      case WPath => 16
      case WLoad => 15
      case WQueued => 14
      case WHold => 13
      case WPersisted => 12
      case WSwapped(_) => 11
      case WClear(_, next) => if next <= |REGISTERED| then |REGISTERED| - next + 2 else 0
      case WDone(_) => 0
      case WFailed => 0)
  }

  function TotalRank(procs: seq<Proc>): nat {
    if procs == [] then 0 else Rank(procs[0]) + TotalRank(procs[1..])
  }

  lemma {:induction false} TotalRankUpdate(procs: seq<Proc>, p: nat, proc: Proc)
    requires p < |procs|
    ensures TotalRank(procs[p := proc]) == TotalRank(procs) - Rank(procs[p]) + Rank(proc)
  {
    if p == 0 {
      assert procs[p := proc][1..] == procs[1..];
    } else {
      TotalRankUpdate(procs[1..], p - 1, proc);
      assert procs[p := proc][1..] == procs[1..][p - 1 := proc];
    }
  }

  lemma StepLowersRank(proc: Proc, hit: bool, busy: bool, versions: nat, choice: Choice, e: Effect)
    requires ProcStep(proc, hit, busy, versions, choice) == Some(e) && Disciplined(proc)
    ensures Rank(e.proc) < Rank(proc)
  {
  }

  function Moves(actions: seq<Action>): nat {
    if actions == [] then 0
    else Moves(actions[..|actions| - 1]) + if actions[|actions| - 1].Forget? then 0 else 1
  }

  lemma MoveLowersTotal(s: State, a: Action, t: State)
    requires Inv(s) && Next(s, a) == Some(t)
    ensures if a.Forget? then TotalRank(t.procs) == TotalRank(s.procs) else TotalRank(t.procs) < TotalRank(s.procs)
  {
    match a
    case Forget(_) =>
    case Grant =>
      var p := s.queue[0].pid;
      HeadIsQueued(s);
      TotalRankUpdate(s.procs, p, Granted(s.procs[p], |s.installed|));
    case Act(p, choice) =>
      var e := ActNext(s, p, choice).value;
      var slot := SlotOf(s.procs[p]);
      assert Disciplined(s.procs[p]);
      StepLowersRank(s.procs[p], slot.Some? && slot.value in s.entries, slot.Some? && slot.value in s.leaders,
                     |s.installed|, choice, e);
      TotalRankUpdate(s.procs, p, e.proc);
  }

  /** No run goes on for ever: a run makes at most as many moves as its processes have steps. */
  lemma {:induction false} RunsEnd(s0: State, actions: seq<Action>, s: State)
    requires Reaches(s0, actions, s)
    ensures Moves(actions) + TotalRank(s.procs) <= TotalRank(s0.procs)
    decreases |actions|
  {
    if actions != [] {
      var before := Run(s0, actions[..|actions| - 1]).value;
      RunsEnd(s0, actions[..|actions| - 1], before);
      RunKeepsInv(s0, actions[..|actions| - 1], before);
      MoveLowersTotal(before, actions[|actions| - 1], s);
    }
  }
}
