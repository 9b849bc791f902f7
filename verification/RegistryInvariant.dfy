/** What every reachable state of the registry system satisfies. */
module RegistryInvariant {
  import opened Wrappers
  import opened RegistryModel

  ghost predicate Ids(s: State) {
    && s.installed != []
    && (forall p :: p in s.readers ==> p < |s.procs|)
    && (s.writer.Some? ==> s.writer.value < |s.procs|)
    && (forall i :: 0 <= i < |s.queue| ==> s.queue[i].pid < |s.procs|)
    && (forall slot :: slot in s.leaders ==> s.leaders[slot] < |s.procs|)
  }

  // ---------------------------------------------------------------- the lock

  ghost predicate LockHeld(s: State, p: nat)
    requires p < |s.procs|
  {
    && (p in s.readers <==> HoldsRead(s.procs[p]))
    && (s.writer == Some(p) <==> HoldsWrite(s.procs[p]))
  }

  /** The lock's books match the processes, and a writer is alone. */
  ghost predicate LockOk(s: State) {
    && (forall p :: 0 <= p < |s.procs| ==> LockHeld(s, p))
    && (s.writer.Some? ==> s.readers == {})
  }

  ghost predicate Waiting(s: State, p: nat)
    requires p < |s.procs|
  {
    forall write: bool :: Request(p, write) in s.queue <==> Queued(s.procs[p], write)
  }

  /** The queue holds each waiting process once and nobody else. */
  ghost predicate QueueOk(s: State) {
    && (forall p :: 0 <= p < |s.procs| ==> Waiting(s, p))
    && (forall i, j :: 0 <= i < j < |s.queue| ==> s.queue[i].pid != s.queue[j].pid)
  }

  // ---------------------------------------------------------------- single flight

  ghost predicate Leading(s: State, p: nat)
    requires p < |s.procs|
  {
    forall slot :: slot in s.leaders && s.leaders[slot] == p <==> Leads(s.procs[p], slot)
  }

  ghost predicate LeadersOk(s: State) {
    forall p :: 0 <= p < |s.procs| ==> Leading(s, p)
  }

  /** Guarded handlers touch only caches that are always reached with the lock held, the others only
      the two that never are; a handler in or behind a flight is at a single-flight access. */
  predicate Disciplined(proc: Proc) {
    match proc
    case Guarded(g, todo) =>
      && (forall i :: 0 <= i < |todo| ==> LockedFirst(todo[i].slot.cache))
      && (g.GLead? || g.GWait? ==> todo != [] && todo[0].Single?)
    case Unguarded(_, slot) => !LockedFirst(slot.cache)
    case Writer(w, _) => w.WClear? ==> w.next <= |REGISTERED|
  }

  ghost predicate DisciplineOk(s: State) {
    forall p :: 0 <= p < |s.procs| ==> Disciplined(s.procs[p])
  }

  // ---------------------------------------------------------------- versions

  /** A process that holds the read lock sees the live provider; one that let go of it with a value
      in hand saw a provider no newer. */
  predicate Sees(versions: nat, proc: Proc) {
    match proc
    case Guarded(g, _) => g.GReady? || g.GLead? || g.GWait? ==> g.seen == versions - 1
    case Unguarded(u, _) =>
      && (u.UFetch? ==> u.seen == versions - 1)
      && (u.UInsert? ==> u.seen < versions)
    case Writer(_, _) => true
  }

  ghost predicate SeenOk(s: State) {
    forall p :: 0 <= p < |s.procs| ==> Sees(|s.installed|, s.procs[p])
  }

  ghost predicate Signed(s: State, p: nat)
    requires p < |s.procs|
  {
    match InstalledBy(s.procs[p])
    case None => true
    case Some(v) => 1 <= v < |s.installed| && s.installed[v] == Install(s.procs[p].url, p)
  }

  /** Every version after the first has an author, a writer that is past its swap. */
  ghost predicate Authored(s: State, u: nat)
    requires u < |s.installed|
  {
    var author := s.installed[u].author;
    author < |s.procs| && InstalledBy(s.procs[author]) == Some(u)
  }

  ghost predicate AuthorsOk(s: State) {
    && (forall p :: 0 <= p < |s.procs| ==> Signed(s, p))
    && (forall u :: 1 <= u < |s.installed| ==> Authored(s, u))
  }

  predicate BetweenPersistAndSwap(proc: Proc) {
    proc.Writer? && proc.w.WPersisted?
  }

  /** The stored setting is the live provider's, except while a writer that holds the lock is between
      storing its own and installing it. */
  ghost predicate PersistOk(s: State)
    requires s.installed != []
  {
    if s.writer.Some? && s.writer.value < |s.procs| && BetweenPersistAndSwap(s.procs[s.writer.value]) then
      s.persisted == s.procs[s.writer.value].url
    else
      s.persisted == s.installed[|s.installed| - 1].url
  }

  // ---------------------------------------------------------------- cached values

  predicate HasCleared(s: State, u: nat, c: Cache)
    requires u < |s.installed|
  {
    var author := s.installed[u].author;
    author < |s.procs| && Cleared(s.procs[author], c)
  }

  /** A value was fetched from a version no newer than the one live when it was inserted, from that
      very version where the lock is held throughout, and no later installer has cleared its cache yet. */
  ghost predicate EntryOk(s: State, slot: Slot, e: Entry) {
    && e.filledAt < |s.installed|
    && (e.source.Provider? ==>
          e.source.version <= e.filledAt && (LockedFirst(slot.cache) ==> e.source.version == e.filledAt))
    && (forall u :: e.filledAt < u < |s.installed| ==> !HasCleared(s, u, slot.cache))
  }

  ghost predicate EntriesOk(s: State) {
    forall slot :: slot in s.entries ==> EntryOk(s, slot, s.entries[slot])
  }

  ghost predicate Inv(s: State) {
    && Ids(s) && LockOk(s) && QueueOk(s) && LeadersOk(s) && DisciplineOk(s)
    && SeenOk(s) && AuthorsOk(s) && PersistOk(s) && EntriesOk(s)
  }

  lemma InitEstablishes(s: State)
    requires Init(s)
    ensures Inv(s)
  {
    forall p | 0 <= p < |s.procs|
      ensures LockHeld(s, p) && Waiting(s, p) && Leading(s, p) && Disciplined(s.procs[p])
      ensures Sees(|s.installed|, s.procs[p]) && Signed(s, p)
    {
      assert AtStart(s.procs[p]);
    }
  }

  // ---------------------------------------------------------------- what a step of a process may do

  predicate LockFits(proc: Proc, e: Effect) {
    && (HoldsRead(e.proc) <==> HoldsRead(proc) && !e.lock.ReleaseRead?)
    && (HoldsWrite(e.proc) <==> HoldsWrite(proc) && !e.lock.ReleaseWrite?)
    && (e.lock.ReleaseRead? ==> HoldsRead(proc))
    && (e.lock.ReleaseWrite? ==> HoldsWrite(proc))
  }

  predicate QueueFits(proc: Proc, e: Effect) {
    forall write: bool :: !Queued(proc, write) && (Queued(e.proc, write) <==> e.enqueue == Some(write))
  }

  ghost predicate LeadFits(proc: Proc, busy: bool, e: Effect) {
    && (e.lead.TakeLead? ==> !busy && SlotOf(proc) == Some(e.lead.taken))
    && (e.lead.DropLead? ==> Leads(proc, e.lead.dropped))
    && (forall slot :: Leads(e.proc, slot) <==>
          (Leads(proc, slot) && e.lead != DropLead(slot)) || e.lead == TakeLead(slot))
  }

  /** Only a writer between persisting and swapping installs, and it installs its own url. */
  predicate InstallFits(proc: Proc, versions: nat, e: Effect) {
    && (e.install.Some? <==> BetweenPersistAndSwap(proc))
    && (e.install.Some? ==> e.install == Some(proc.url) && InstalledBy(proc).None? && e.cache.SameEntries?
                            && e.persist.None? && e.lock.KeepLock?)
    && InstalledBy(e.proc) == (if e.install.Some? then Some(versions) else InstalledBy(proc))
    && (proc.Writer? <==> e.proc.Writer?)
    && (proc.Writer? ==> e.proc.url == proc.url)
  }

  predicate PersistFits(proc: Proc, e: Effect) {
    && (e.persist.Some? <==> BetweenPersistAndSwap(e.proc))
    && (e.persist.Some? ==> e.persist == Some(e.proc.url) && e.lock.KeepLock? && HoldsWrite(proc))
    && (BetweenPersistAndSwap(proc) ==> HoldsWrite(proc))
  }

  ghost predicate CacheFits(proc: Proc, versions: nat, e: Effect) {
    && (forall c :: Cleared(e.proc, c) ==> e.install.None? && (Cleared(proc, c) || e.cache == Clear(c)))
    && (e.cache.Insert? && e.cache.source.Provider? ==>
          && e.cache.source.version < versions
          && (LockedFirst(e.cache.slot.cache) ==> e.cache.source.version == versions - 1))
  }

  lemma StepLock(proc: Proc, hit: bool, busy: bool, versions: nat, choice: Choice, e: Effect)
    requires ProcStep(proc, hit, busy, versions, choice) == Some(e)
    ensures LockFits(proc, e)
  {
  }

  lemma StepQueue(proc: Proc, hit: bool, busy: bool, versions: nat, choice: Choice, e: Effect)
    requires ProcStep(proc, hit, busy, versions, choice) == Some(e)
    ensures QueueFits(proc, e)
  {
  }

  lemma StepLead(proc: Proc, hit: bool, busy: bool, versions: nat, choice: Choice, e: Effect)
    requires ProcStep(proc, hit, busy, versions, choice) == Some(e)
    ensures LeadFits(proc, busy, e)
  {
  }

  lemma StepDiscipline(proc: Proc, hit: bool, busy: bool, versions: nat, choice: Choice, e: Effect)
    requires ProcStep(proc, hit, busy, versions, choice) == Some(e) && Disciplined(proc)
    ensures Disciplined(e.proc)
  {
  }

  lemma StepSees(proc: Proc, hit: bool, busy: bool, versions: nat, choice: Choice, e: Effect)
    requires ProcStep(proc, hit, busy, versions, choice) == Some(e) && Sees(versions, proc)
    ensures Sees(versions + if e.install.Some? then 1 else 0, e.proc)
  {
  }

  lemma StepInstall(proc: Proc, hit: bool, busy: bool, versions: nat, choice: Choice, e: Effect)
    requires ProcStep(proc, hit, busy, versions, choice) == Some(e)
    ensures InstallFits(proc, versions, e)
  {
  }

  lemma StepPersist(proc: Proc, hit: bool, busy: bool, versions: nat, choice: Choice, e: Effect)
    requires ProcStep(proc, hit, busy, versions, choice) == Some(e)
    ensures PersistFits(proc, e)
  {
  }

  lemma EveryCacheIsRegistered(c: Cache)
    ensures c in REGISTERED
  {
    match c
    case OrderDetail => assert REGISTERED[0] == c;
    case OrdersByOwner => assert REGISTERED[1] == c;
    case OrdersByToken => assert REGISTERED[2] == c;
    case SwapQuote => assert REGISTERED[3] == c;
    case TradesByAddress => assert REGISTERED[4] == c;
    case TradesByTx => assert REGISTERED[5] == c;
    case TradesByOrderHash => assert REGISTERED[6] == c;
    case TakerTxHashes => assert REGISTERED[7] == c;
  }

  lemma WriterClears(w: WriterAt, url: string, versions: nat, choice: Choice, e: Effect, c: Cache)
    requires WriterStep(w, url, versions, choice) == Some(e) && Disciplined(Writer(w, url))
    requires Cleared(e.proc, c)
    ensures e.install.None? && (Cleared(Writer(w, url), c) || e.cache == Clear(c))
  {
    EveryCacheIsRegistered(c);
    if w.WClear? && w.next < |REGISTERED| {
      assert REGISTERED[..w.next + 1] == REGISTERED[..w.next] + [REGISTERED[w.next]];
    }
  }

  lemma StepCache(proc: Proc, hit: bool, busy: bool, versions: nat, choice: Choice, e: Effect)
    requires ProcStep(proc, hit, busy, versions, choice) == Some(e)
    requires Disciplined(proc) && Sees(versions, proc) && versions > 0
    ensures CacheFits(proc, versions, e)
  {
    if proc.Writer? {
      forall c | Cleared(e.proc, c) ensures e.install.None? && (Cleared(proc, c) || e.cache == Clear(c)) {
        WriterClears(proc.w, proc.url, versions, choice, e, c);
      }
    }
  }

  // ---------------------------------------------------------------- a process step keeps each part

  lemma ApplyKeepsIds(s: State, p: nat, e: Effect)
    requires Ids(s) && p < |s.procs|
    ensures Ids(Apply(s, p, e))
  {
  }

  lemma ApplyKeepsLock(s: State, p: nat, e: Effect)
    requires Ids(s) && LockOk(s) && p < |s.procs| && LockFits(s.procs[p], e)
    ensures LockOk(Apply(s, p, e))
  {
    var t := Apply(s, p, e);
    assert LockHeld(s, p);
    forall q | 0 <= q < |t.procs| ensures LockHeld(t, q) {
      assert LockHeld(s, q);
    }
  }

  lemma ApplyKeepsQueue(s: State, p: nat, e: Effect)
    requires Ids(s) && QueueOk(s) && p < |s.procs| && QueueFits(s.procs[p], e)
    ensures QueueOk(Apply(s, p, e))
  {
    var t := Apply(s, p, e);
    assert Waiting(s, p);
    assert forall i :: 0 <= i < |s.queue| ==> s.queue[i].pid != p by {
      forall i | 0 <= i < |s.queue| ensures s.queue[i].pid != p {
        assert Request(s.queue[i].pid, s.queue[i].write) in s.queue;
      }
    }
    forall q | 0 <= q < |t.procs| ensures Waiting(t, q) {
      assert Waiting(s, q);
    }
  }

  lemma ApplyKeepsLeaders(s: State, p: nat, busy: bool, e: Effect)
    requires Ids(s) && LeadersOk(s) && p < |s.procs| && LeadFits(s.procs[p], busy, e)
    requires busy <==> SlotOf(s.procs[p]).Some? && SlotOf(s.procs[p]).value in s.leaders
    ensures LeadersOk(Apply(s, p, e))
  {
    var t := Apply(s, p, e);
    assert Leading(s, p);
    forall q | 0 <= q < |t.procs| ensures Leading(t, q) {
      assert Leading(s, q);
    }
  }

  lemma ApplyKeepsSeen(s: State, p: nat, e: Effect)
    requires Ids(s) && LockOk(s) && SeenOk(s) && p < |s.procs|
    requires Sees(|s.installed| + if e.install.Some? then 1 else 0, e.proc)
    requires e.install.Some? ==> HoldsWrite(s.procs[p])
    ensures SeenOk(Apply(s, p, e))
  {
    var t := Apply(s, p, e);
    assert LockHeld(s, p);
    forall q | 0 <= q < |t.procs| ensures Sees(|t.installed|, t.procs[q]) {
      assert LockHeld(s, q) && Sees(|s.installed|, s.procs[q]);
    }
  }

  lemma ApplyKeepsAuthors(s: State, p: nat, e: Effect)
    requires Ids(s) && AuthorsOk(s) && p < |s.procs| && InstallFits(s.procs[p], |s.installed|, e)
    ensures AuthorsOk(Apply(s, p, e))
  {
    var t := Apply(s, p, e);
    assert Signed(s, p);
    forall q | 0 <= q < |t.procs| ensures Signed(t, q) {
      assert Signed(s, q);
    }
    forall u | 1 <= u < |t.installed| ensures Authored(t, u) {
      if u < |s.installed| {
        assert Authored(s, u);
      }
    }
  }

  lemma ApplyKeepsPersist(s: State, p: nat, e: Effect)
    requires Ids(s) && LockOk(s) && PersistOk(s) && p < |s.procs|
    requires LockFits(s.procs[p], e) && InstallFits(s.procs[p], |s.installed|, e) && PersistFits(s.procs[p], e)
    ensures PersistOk(Apply(s, p, e))
  {
    assert LockHeld(s, p);
  }

  lemma ApplyKeepsEntries(s: State, p: nat, e: Effect)
    requires Ids(s) && AuthorsOk(s) && EntriesOk(s) && p < |s.procs|
    requires InstallFits(s.procs[p], |s.installed|, e) && CacheFits(s.procs[p], |s.installed|, e)
    ensures EntriesOk(Apply(s, p, e))
  {
    var t := Apply(s, p, e);
    forall slot | slot in t.entries ensures EntryOk(t, slot, t.entries[slot]) {
      if slot in s.entries && t.entries[slot] == s.entries[slot] && !(e.cache.Insert? && e.cache.slot == slot) {
        assert EntryOk(s, slot, s.entries[slot]);
        forall u | s.entries[slot].filledAt < u < |t.installed| ensures !HasCleared(t, u, slot.cache) {
          if u < |s.installed| {
            assert !HasCleared(s, u, slot.cache);
          }
        }
      }
    }
  }

  lemma ActKeepsInv(s: State, p: nat, choice: Choice, e: Effect)
    requires Inv(s) && p < |s.procs| && ActNext(s, p, choice) == Some(e)
    ensures Inv(Apply(s, p, e))
  {
    hide LockOk, QueueOk, LeadersOk, AuthorsOk, PersistOk, EntriesOk;
    hide LockFits, QueueFits, LeadFits, InstallFits, CacheFits, ProcStep, Apply;
    var proc, n := s.procs[p], |s.installed|;
    var slot := SlotOf(proc);
    var hit, busy := slot.Some? && slot.value in s.entries, slot.Some? && slot.value in s.leaders;
    assert Disciplined(proc) && Sees(n, proc);
    ApplyKeepsIds(s, p, e);
    StepLock(proc, hit, busy, n, choice, e);
    ApplyKeepsLock(s, p, e);
    StepQueue(proc, hit, busy, n, choice, e);
    ApplyKeepsQueue(s, p, e);
    StepLead(proc, hit, busy, n, choice, e);
    ApplyKeepsLeaders(s, p, busy, e);
    StepDiscipline(proc, hit, busy, n, choice, e);
    ApplyKeepsDiscipline(s, p, e);
    StepInstall(proc, hit, busy, n, choice, e);
    ApplyKeepsAuthors(s, p, e);
    StepPersist(proc, hit, busy, n, choice, e);
    ApplyKeepsPersist(s, p, e);
    StepSees(proc, hit, busy, n, choice, e);
    InstallerHoldsLock(proc, n, e);
    ApplyKeepsSeen(s, p, e);
    StepCache(proc, hit, busy, n, choice, e);
    ApplyKeepsEntries(s, p, e);
  }

  lemma InstallerHoldsLock(proc: Proc, versions: nat, e: Effect)
    requires InstallFits(proc, versions, e)
    ensures e.install.Some? ==> HoldsWrite(proc)
  {
  }

  lemma ApplyKeepsDiscipline(s: State, p: nat, e: Effect)
    requires Ids(s) && DisciplineOk(s) && p < |s.procs| && Disciplined(e.proc)
    ensures DisciplineOk(Apply(s, p, e))
  {
  }

  // ---------------------------------------------------------------- the lock is granted

  lemma GrantedProc(proc: Proc, write: bool, n: nat)
    requires Queued(proc, write) && n > 0
    ensures var after := Granted(proc, n);
      && (HoldsRead(after) <==> !write) && (HoldsWrite(after) <==> write)
      && !HoldsRead(proc) && !HoldsWrite(proc)
      && (forall w: bool :: (Queued(proc, w) <==> w == write) && !Queued(after, w))
      && (forall slot :: Leads(after, slot) <==> Leads(proc, slot))
      && (Disciplined(proc) ==> Disciplined(after))
      && Sees(n, after)
      && InstalledBy(after) == InstalledBy(proc)
      && (proc.Writer? <==> after.Writer?) && (proc.Writer? ==> after.url == proc.url)
      && (forall c :: Cleared(after, c) <==> Cleared(proc, c))
      && !BetweenPersistAndSwap(after)
  {
  }

  lemma HeadIsQueued(s: State)
    requires Ids(s) && QueueOk(s) && CanGrant(s)
    ensures Queued(s.procs[s.queue[0].pid], s.queue[0].write)
  {
    assert Waiting(s, s.queue[0].pid);
    assert Request(s.queue[0].pid, s.queue[0].write) in s.queue;
  }

  lemma GrantKeepsLock(s: State)
    requires Ids(s) && LockOk(s) && QueueOk(s) && CanGrant(s)
    ensures Ids(GrantHead(s)) && LockOk(GrantHead(s))
  {
    var t, p := GrantHead(s), s.queue[0].pid;
    HeadIsQueued(s);
    GrantedProc(s.procs[p], s.queue[0].write, |s.installed|);
    assert LockHeld(s, p);
    forall q | 0 <= q < |t.procs| ensures LockHeld(t, q) {
      assert LockHeld(s, q);
    }
  }

  lemma GrantKeepsQueue(s: State)
    requires Ids(s) && QueueOk(s) && CanGrant(s)
    ensures QueueOk(GrantHead(s))
  {
    var t, p := GrantHead(s), s.queue[0].pid;
    HeadIsQueued(s);
    GrantedProc(s.procs[p], s.queue[0].write, |s.installed|);
    assert s.queue == [s.queue[0]] + t.queue;
    forall q | 0 <= q < |t.procs| ensures Waiting(t, q) {
      assert Waiting(s, q);
    }
  }

  lemma GrantKeepsRest(s: State)
    requires Inv(s) && CanGrant(s)
    ensures var t := GrantHead(s);
            LeadersOk(t) && DisciplineOk(t) && SeenOk(t) && AuthorsOk(t)
  {
    hide PersistOk, EntriesOk, LockOk;
    var t, p := GrantHead(s), s.queue[0].pid;
    HeadIsQueued(s);
    GrantedProc(s.procs[p], s.queue[0].write, |s.installed|);
    forall q | 0 <= q < |t.procs|
      ensures Leading(t, q) && Disciplined(t.procs[q]) && Sees(|t.installed|, t.procs[q]) && Signed(t, q)
    {
      assert Leading(s, q) && Disciplined(s.procs[q]) && Sees(|s.installed|, s.procs[q]) && Signed(s, q);
    }
    forall u | 1 <= u < |t.installed| ensures Authored(t, u) {
      assert Authored(s, u);
    }
  }

  lemma GrantKeepsData(s: State)
    requires Inv(s) && CanGrant(s)
    ensures var t := GrantHead(s); t.installed != [] && PersistOk(t) && EntriesOk(t)
  {
    var t, p := GrantHead(s), s.queue[0].pid;
    HeadIsQueued(s);
    GrantedProc(s.procs[p], s.queue[0].write, |s.installed|);
    forall slot | slot in t.entries ensures EntryOk(t, slot, t.entries[slot]) {
      assert EntryOk(s, slot, s.entries[slot]);
      forall u | s.entries[slot].filledAt < u < |t.installed| ensures !HasCleared(t, u, slot.cache) {
        assert !HasCleared(s, u, slot.cache);
      }
    }
  }

  lemma ForgetKeepsInv(s: State, slot: Slot)
    requires Inv(s)
    ensures Inv(s.(entries := s.entries - {slot}))
  {
    var t := s.(entries := s.entries - {slot});
    forall p | 0 <= p < |t.procs| ensures LockHeld(t, p) && Waiting(t, p) && Leading(t, p) && Signed(t, p) {
      assert LockHeld(s, p) && Waiting(s, p) && Leading(s, p) && Signed(s, p);
    }
    forall u | 1 <= u < |t.installed| ensures Authored(t, u) {
      assert Authored(s, u);
    }
    forall other | other in t.entries ensures EntryOk(t, other, t.entries[other]) {
      assert EntryOk(s, other, s.entries[other]);
      forall u | s.entries[other].filledAt < u < |t.installed| ensures !HasCleared(t, u, other.cache) {
        assert !HasCleared(s, u, other.cache);
      }
    }
  }

  lemma NextKeepsInv(s: State, a: Action, t: State)
    requires Inv(s) && Next(s, a) == Some(t)
    ensures Inv(t)
  {
    match a
    case Grant =>
      GrantKeepsLock(s);
      GrantKeepsQueue(s);
      GrantKeepsRest(s);
      GrantKeepsData(s);
    case Forget(slot) =>
      ForgetKeepsInv(s, slot);
    case Act(p, choice) =>
      ActKeepsInv(s, p, choice, ActNext(s, p, choice).value);
  }

  /** Every reachable state satisfies the invariant. */
  lemma {:induction false} RunKeepsInv(s: State, actions: seq<Action>, t: State)
    requires Init(s) && Run(s, actions) == Some(t)
    ensures Inv(t)
    decreases |actions|
  {
    if actions == [] {
      InitEstablishes(s);
    } else {
      var before := Run(s, actions[..|actions| - 1]).value;
      RunKeepsInv(s, actions[..|actions| - 1], before);
      NextKeepsInv(before, actions[|actions| - 1], t);
    }
  }
}
