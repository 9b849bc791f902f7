/** The registry swap as a system of steps: handlers that read through the caches, administrators
    that replace the provider, one fair reader/writer lock and eight caches.

    One step is what happens between two suspension points. Any process may take the next step, and a
    cache may forget an entry at any moment. */
module RegistryModel {
  import opened Wrappers

  // ---------------------------------------------------------------- caches

  datatype Cache =
    OrderDetail | OrdersByOwner | OrdersByToken | SwapQuote
  | TradesByAddress | TradesByTx | TradesByOrderHash | TakerTxHashes

  /** The caches in the order in which they were registered, which is the order they are cleared. */
  const REGISTERED: seq<Cache> :=
    [OrderDetail, OrdersByOwner, OrdersByToken, SwapQuote, TradesByAddress, TradesByTx, TradesByOrderHash, TakerTxHashes]

  /** Caches whose handlers take the read lock before they look, and hold it until they are done. The
      other two take it only inside the fetch. */
  predicate LockedFirst(c: Cache) {
    c != OrderDetail && c != SwapQuote
  }

  datatype Slot = Slot(cache: Cache, key: nat)

  /** Where a value came from: the provider of some version, or the fetcher fixed at startup. */
  datatype Source = Provider(version: nat) | Startup

  /** A cached value, with the version that was live when it was inserted. */
  datatype Entry = Entry(source: Source, filledAt: nat)

  /** What a handler holding the lock does with the caches: a single-flight lookup, a plain lookup, or
      a plain insertion of something it fetched. */
  datatype Access = Single(slot: Slot) | Get(slot: Slot) | Put(slot: Slot)

  // ---------------------------------------------------------------- processes

  datatype GuardedAt =
    GStart | GQueued | GReady(seen: nat) | GLead(seen: nat) | GWait(seen: nat) | GDone

  datatype UnguardedAt =
    UStart | ULead | UQueued | UFetch(seen: nat) | UInsert(seen: nat) | UWait | UDone

  datatype WriterAt =
    WStart | WPathQueued | WPath | WLoad | WQueued | WHold | WPersisted
  | WSwapped(version: nat) | WClear(version: nat, next: nat) | WDone(version: nat) | WFailed

  datatype Proc =
    Guarded(g: GuardedAt, todo: seq<Access>)
  | Unguarded(u: UnguardedAt, slot: Slot)
  | Writer(w: WriterAt, url: string)

  datatype Request = Request(pid: nat, write: bool)

  datatype Install = Install(url: string, author: nat)

  datatype State = State(
    installed: seq<Install>,
    persisted: string,
    readers: set<nat>,
    writer: Option<nat>,
    queue: seq<Request>,
    entries: map<Slot, Entry>,
    leaders: map<Slot, nat>,
    procs: seq<Proc>)

  // ---------------------------------------------------------------- what one step does

  datatype LockOp = KeepLock | ReleaseRead | ReleaseWrite
  datatype LeadOp = SameLeaders | TakeLead(taken: Slot) | DropLead(dropped: Slot)
  datatype CacheOp = SameEntries | Insert(slot: Slot, source: Source) | Clear(cache: Cache)

  /** The process after the step and what the step does to everything shared. */
  datatype Effect = Effect(
    proc: Proc,
    lock: LockOp := KeepLock,
    enqueue: Option<bool> := None,
    lead: LeadOp := SameLeaders,
    cache: CacheOp := SameEntries,
    persist: Option<string> := None,
    install: Option<string> := None)

  /** How a step that can go more than one way goes. */
  datatype Choice = Go | FromStartup | Skip | Fail

  /** The slot a process is about to look at. */
  function SlotOf(proc: Proc): Option<Slot> {
    match proc
    case Guarded(_, todo) => if todo == [] then None else Some(todo[0].slot)
    case Unguarded(_, slot) => Some(slot)
    case Writer(_, _) => None
  }

  /** A handler that takes the read lock first. `hit` and `busy` say whether its slot is cached, and
      whether a flight for it is under way. */
  function GuardedStep(g: GuardedAt, todo: seq<Access>, hit: bool, busy: bool, choice: Choice): Option<Effect> {
    match g
    case GStart => Some(Effect(Guarded(GQueued, todo), enqueue := Some(false)))
    case GReady(seen) =>
      if todo == [] then Some(Effect(Guarded(GDone, todo), lock := ReleaseRead))
      else
        var next := Guarded(GReady(seen), todo[1..]);
        (match todo[0]
         case Get(_) => Some(Effect(next))
         case Put(slot) =>
           if choice == Go then Some(Effect(next, cache := Insert(slot, Provider(seen))))
           else if choice == FromStartup then Some(Effect(next, cache := Insert(slot, Startup)))
           else Some(Effect(next))
         case Single(slot) =>
           if hit then Some(Effect(next))
           else if busy then Some(Effect(Guarded(GWait(seen), todo)))
           else Some(Effect(Guarded(GLead(seen), todo), lead := TakeLead(slot))))
    case GLead(seen) =>
      if todo == [] then None
      else
        var slot, next := todo[0].slot, Guarded(GReady(seen), todo[1..]);
        (match choice
         case Go => Some(Effect(next, lead := DropLead(slot), cache := Insert(slot, Provider(seen))))
         case FromStartup => Some(Effect(next, lead := DropLead(slot), cache := Insert(slot, Startup)))
         case Skip => Some(Effect(next, lead := DropLead(slot)))
         case Fail => Some(Effect(Guarded(GReady(seen), []), lead := DropLead(slot))))
    case GWait(seen) =>
      if todo == [] || busy then None
      else if choice == Fail then Some(Effect(Guarded(GReady(seen), [])))
      else Some(Effect(Guarded(GReady(seen), todo[1..])))
    case _ => None
  }

  /** A handler that takes the read lock only inside the fetch: the lock is gone again before the
      fetched value is inserted. */
  function UnguardedStep(u: UnguardedAt, slot: Slot, hit: bool, busy: bool, choice: Choice): Option<Effect> {
    match u
    case UStart =>
      if hit then Some(Effect(Unguarded(UDone, slot)))
      else if busy then Some(Effect(Unguarded(UWait, slot)))
      else Some(Effect(Unguarded(ULead, slot), lead := TakeLead(slot)))
    case ULead => Some(Effect(Unguarded(UQueued, slot), enqueue := Some(false)))
    case UFetch(seen) =>
      if choice == Fail then Some(Effect(Unguarded(UDone, slot), lock := ReleaseRead, lead := DropLead(slot)))
      else Some(Effect(Unguarded(UInsert(seen), slot), lock := ReleaseRead))
    case UInsert(seen) =>
      Some(Effect(Unguarded(UDone, slot), lead := DropLead(slot), cache := Insert(slot, Provider(seen))))
    case UWait => if busy then None else Some(Effect(Unguarded(UDone, slot)))
    case _ => None
  }

  /** `put_registry`. `versions` is the number of providers installed so far. */
  function WriterStep(w: WriterAt, url: string, versions: nat, choice: Choice): Option<Effect> {
    match w
    case WStart =>
      if url == "" then Some(Effect(Writer(WFailed, url)))
      else Some(Effect(Writer(WPathQueued, url), enqueue := Some(false)))
    case WPath => Some(Effect(Writer(WLoad, url), lock := ReleaseRead))
    case WLoad =>
      if choice == Fail then Some(Effect(Writer(WFailed, url)))
      else Some(Effect(Writer(WQueued, url), enqueue := Some(true)))
    case WHold =>
      if choice == Fail then Some(Effect(Writer(WFailed, url), lock := ReleaseWrite))
      else Some(Effect(Writer(WPersisted, url), persist := Some(url)))
    case WPersisted => Some(Effect(Writer(WSwapped(versions), url), install := Some(url)))
    case WSwapped(version) => Some(Effect(Writer(WClear(version, 0), url), lock := ReleaseWrite))
    case WClear(version, next) =>
      if next < |REGISTERED| then Some(Effect(Writer(WClear(version, next + 1), url), cache := Clear(REGISTERED[next])))
      else Some(Effect(Writer(WDone(version), url)))
    case _ => None
  }

  function ProcStep(proc: Proc, hit: bool, busy: bool, versions: nat, choice: Choice): Option<Effect> {
    match proc
    case Guarded(g, todo) => GuardedStep(g, todo, hit, busy, choice)
    case Unguarded(u, slot) => UnguardedStep(u, slot, hit, busy, choice)
    case Writer(w, url) => WriterStep(w, url, versions, choice)
  }

  /** Carries a step out. A value is stamped with the version live at its insertion. */
  function Apply(s: State, p: nat, e: Effect): State
    requires p < |s.procs| && s.installed != []
  {
    s.(procs := s.procs[p := e.proc],
       readers := if e.lock.ReleaseRead? then s.readers - {p} else s.readers,
       writer := if e.lock.ReleaseWrite? then None else s.writer,
       queue := if e.enqueue.Some? then s.queue + [Request(p, e.enqueue.value)] else s.queue,
       leaders := match e.lead
                  case SameLeaders => s.leaders
                  case TakeLead(slot) => s.leaders[slot := p]
                  case DropLead(slot) => s.leaders - {slot},
       entries := match e.cache
                  case SameEntries => s.entries
                  case Insert(slot, source) => s.entries[slot := Entry(source, |s.installed| - 1)]
                  case Clear(cache) => map slot | slot in s.entries && slot.cache != cache :: s.entries[slot],
       persisted := if e.persist.Some? then e.persist.value else s.persisted,
       installed := if e.install.Some? then s.installed + [Install(e.install.value, p)] else s.installed)
  }

  // ---------------------------------------------------------------- steps of the system

  datatype Action = Grant | Forget(forgotten: Slot) | Act(pid: nat, choice: Choice)

  function ActNext(s: State, p: nat, choice: Choice): Option<Effect>
    requires p < |s.procs|
  {
    var slot := SlotOf(s.procs[p]);
    ProcStep(s.procs[p], slot.Some? && slot.value in s.entries, slot.Some? && slot.value in s.leaders,
             |s.installed|, choice)
  }

  /** What a queued process becomes once it holds the lock. */
  function Granted(proc: Proc, versions: nat): Proc
    requires versions > 0
  {
    match proc
    case Guarded(GQueued, todo) => Guarded(GReady(versions - 1), todo)
    case Unguarded(UQueued, slot) => Unguarded(UFetch(versions - 1), slot)
    case Writer(WPathQueued, url) => Writer(WPath, url)
    case Writer(WQueued, url) => Writer(WHold, url)
    case _ => proc
  }

  /** The lock is fair: only the head of the queue can be let in. */
  predicate CanGrant(s: State) {
    && s.queue != [] && s.queue[0].pid < |s.procs| && s.writer.None?
    && (s.queue[0].write ==> s.readers == {})
  }

  function GrantHead(s: State): State
    requires CanGrant(s) && s.installed != []
  {
    var p := s.queue[0].pid;
    s.(queue := s.queue[1..],
       procs := s.procs[p := Granted(s.procs[p], |s.installed|)],
       readers := if s.queue[0].write then s.readers else s.readers + {p},
       writer := if s.queue[0].write then Some(p) else s.writer)
  }

  function Next(s: State, a: Action): Option<State> {
    if s.installed == [] then None
    else
      match a
      case Grant => if CanGrant(s) then Some(GrantHead(s)) else None
      case Forget(slot) => Some(s.(entries := s.entries - {slot}))
      case Act(p, choice) =>
        if p >= |s.procs| then None
        else
          match ActNext(s, p, choice)
          case None => None
          case Some(e) => Some(Apply(s, p, e))
  }

  /** At startup the setting and the provider agree, the caches are empty and nothing runs. */
  predicate AtStart(proc: Proc) {
    match proc
    case Guarded(g, todo) => g == GStart && forall i :: 0 <= i < |todo| ==> LockedFirst(todo[i].slot.cache)
    case Unguarded(u, slot) => u == UStart && !LockedFirst(slot.cache)
    case Writer(w, _) => w == WStart
  }

  predicate Init(s: State) {
    && |s.installed| == 1 && s.persisted == s.installed[0].url
    && s.readers == {} && s.writer == None && s.queue == []
    && s.entries == map[] && s.leaders == map[]
    && forall p :: 0 <= p < |s.procs| ==> AtStart(s.procs[p])
  }

  /** The state after a sequence of steps, if every step was possible. */
  function Run(s: State, actions: seq<Action>): Option<State>
    decreases |actions|
  {
    if actions == [] then Some(s)
    else
      match Run(s, actions[..|actions| - 1])
      case None => None
      case Some(t) => Next(t, actions[|actions| - 1])
  }

  // ---------------------------------------------------------------- reading a process

  predicate HoldsRead(proc: Proc) {
    match proc
    case Guarded(g, _) => g.GReady? || g.GLead? || g.GWait?
    case Unguarded(u, _) => u.UFetch?
    case Writer(w, _) => w.WPath?
  }

  predicate HoldsWrite(proc: Proc) {
    proc.Writer? && (proc.w.WHold? || proc.w.WPersisted? || proc.w.WSwapped?)
  }

  predicate Queued(proc: Proc, write: bool) {
    match proc
    case Guarded(g, _) => !write && g.GQueued?
    case Unguarded(u, _) => !write && u.UQueued?
    case Writer(w, _) => if write then w.WQueued? else w.WPathQueued?
  }

  predicate Leads(proc: Proc, slot: Slot) {
    match proc
    case Guarded(g, todo) => g.GLead? && todo != [] && todo[0].slot == slot
    case Unguarded(u, own) => own == slot && (u.ULead? || u.UQueued? || u.UFetch? || u.UInsert?)
    case Writer(_, _) => false
  }

  /** The version this writer has installed, once it has. */
  function InstalledBy(proc: Proc): Option<nat> {
    match proc
    case Writer(WSwapped(v), _) => Some(v)
    case Writer(WClear(v, _), _) => Some(v)
    case Writer(WDone(v), _) => Some(v)
    case _ => None
  }

  /** Whether this writer has cleared the cache after its swap. */
  predicate Cleared(proc: Proc, c: Cache) {
    match proc
    case Writer(WClear(_, next), _) => next <= |REGISTERED| && c in REGISTERED[..next]
    case Writer(WDone(_), _) => true
    case _ => false
  }

  predicate Finished(proc: Proc) {
    match proc
    case Guarded(g, _) => g.GDone?
    case Unguarded(u, _) => u.UDone?
    case Writer(w, _) => w.WDone? || w.WFailed?
  }
}
