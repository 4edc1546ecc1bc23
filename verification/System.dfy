/** All replicas at work on the shared tables, one data access call at a time. A process is one
    service call, event worker pass or detector pass of some replica; any number of them
    interleave. The clock is one shared clock that never runs backwards. */
module System {
  import opened Wrappers
  import opened Store

  type Pid = nat

  // Advisory locks (pkg/db/advisory_locks.go) are taken on hashes, so distinct names may
  // collide; nothing is assumed of the hash functions.
  datatype LockName = ResourceLock(id: Id) | StatusLock(id: Id) | EventLock(eid: nat)
                    | StaleCheckLock | UndeliveredCheckLock
  type Key = (int, int)

  datatype Config = Config(
    hash: LockName -> Key,
    valid: string -> bool,          // manifest validation
    interval: int,                  // deleteEventRepublishInterval
    threshold: int,                 // stale delete threshold
    handlers: map<Kind, nat>)       // how many handlers are registered for each event type

  // Where a process is, with its local variables. The lock waiting states come first; from the
  // state after one on the lock is held until the process ends.

  /** ResourceService.Create and Update. */
  datatype Writer =
    | CreRow(id: Id, consumer: string, version: int, payload: string)
    | CreEvent(id: Id)
    | UpdLock(id: Id, want: int, payload: string)
    | UpdRead(id: Id, want: int, payload: string)
    | UpdWrite(id: Id, want: int, payload: string, found: Row)
    | UpdEvent(id: Id)

  /** ResourceService.MarkAsDeleting and republishDeleteEvent. */
  datatype Deleter =
    | DelLock(id: Id)
    | DelRead(id: Id)
    | DelSoft(id: Id)
    | DelEvent(id: Id, cause: Option<nat>)
    | RepFind(id: Id, inc: nat)
    | RepCheck(id: Id, inc: nat, latest: Option<nat>)
    | RepEvent(id: Id, inc: nat)

  /** HandleStatusUpdate and ResourceService.UpdateStatus. */
  datatype Reporter =
    | StaGet(id: Id, consumer: string, status: Status, gone: bool)
    | StaDrop(id: Id)
    | StaLock(id: Id, status: Status)
    | StaRead(id: Id, status: Status)
    | StaWrite(id: Id, status: Status, found: Row)

  /** KindControllerManager.handleEvent behind a lock or behind GRPCBroker.PredicateEvent. */
  datatype Worker =
    | EvLock(eid: nat)
    | PreGet(eid: nat)
    | PreRow(eid: nat, event: Event)
    | PreSave(eid: nat, event: Event)
    | EvGet(eid: nat, locked: bool)
    | EvRow(eid: nat, event: Event, k: nat, locked: bool)
    | EvSend(eid: nat, event: Event, k: nat, row: Row, readAt: nat, locked: bool)
    | EvSave(eid: nat, event: Event, locked: bool)

  /** StaleDeleteDetector.Run and UndeliveredDetector.Run. */
  datatype Checker = OldLock | OldNow | OldRun(now: nat) | NewLock | NewLoop

  datatype Proc = Spec(w: Writer) | Deletion(d: Deleter) | Feedback(r: Reporter)
                | Work(k: Worker) | Check(c: Checker) | Done(outcome: Outcome)

  datatype Outcome = Rejected(verdict: Verdict) | Completed | Throttled(latest: nat) | Disabled
                   | LookupFailed | Busy | Skipped | Failed | Retired(count: nat)

  /** What one step does to the shared state. */
  datatype Effect =
    | Nothing
    | Take(key: Key)
    | Insert(id: Id, consumer: string, version: int, payload: string)
    | WriteSpec(id: Id, version: int, payload: string)
    | WriteStatus(id: Id, status: Status)
    | MarkDeleted(id: Id)
    | Remove(id: Id)
    | Enqueue(id: Id, kind: Kind, cause: Option<nat>)
    | Reconcile(eid: nat, event: Event)
    | RetireAll(picked: set<nat>)
    | Publish(kind: Kind, id: Id)

  // The log is a history variable: who stepped, from where, what it did, and the incarnation
  // stored under the identifier it worked on at that moment.
  datatype Entry = Entry(p: Pid, at: Proc, effect: Effect, hit: Option<nat>)

  datatype State = State(db: Db, locks: map<Key, Pid>, procs: map<Pid, Proc>, nextPid: Pid,
                         log: seq<Entry>)

  const Init := State(Empty, map[], map[], 0, [])

  // What the environment decides in a step: whether a call to the broker, the subscriber list
  // or a best effort lookup succeeds, and what an unordered or unspecified query returns.
  datatype Choice = Choice(ok: bool, picked: set<nat>, latest: Option<nat>, id: Id, kind: Kind)

  datatype Action =
    | Spawn(start: Proc)
    | Go(p: Pid, choice: Choice)
    | End(p: Pid)                   // a return, an error return or a crash: the lock is released
    | Tick(seconds: nat)
    | Purge                         // KindControllerManager.syncEvents

  predicate IsStart(q: Proc)
  {
    match q
    case Spec(w) => w.CreRow? || w.UpdLock?
    case Deletion(d) => d.DelLock?
    case Feedback(r) => r.StaGet?
    case Work(k) => k.EvLock? || k.PreGet?
    case Check(c) => c.OldLock? || c.NewLock?
    case Done(_) => false
  }

  /** The resource row a process is about to touch. */
  function Subject(q: Proc): Option<Id>
  {
    match q
    case Spec(w) => Some(w.id)
    case Deletion(d) => Some(d.id)
    case Feedback(r) => Some(r.id)
    case Work(k) => if k.PreRow? || k.EvRow? then Some(k.event.sourceId) else None
    case _ => None
  }

  function Hit(db: Db, id: Option<Id>): Option<nat>
  {
    if id.Some? && id.value in db.rows then Some(db.rows[id.value].inc) else None
  }

  function PlanWriter(cfg: Config, db: Db, w: Writer): (Effect, Proc)
  {
    match w
    case CreRow(id, consumer, version, payload) =>
      if !cfg.valid(payload) then (Nothing, Done(Rejected(Invalid)))
      else if id in db.rows then (Nothing, Done(Rejected(Refused)))
      else (Insert(id, consumer, version, payload), Spec(CreEvent(id)))
    case CreEvent(id) => (Enqueue(id, CreateEvent, None), Done(Completed))
    case UpdLock(id, want, payload) =>
      (Take(cfg.hash(ResourceLock(id))), Spec(UpdRead(id, want, payload)))
    case UpdRead(id, want, payload) =>
      var verdict := Judge(cfg.valid, db.Find(id), Update(want, payload));
      if verdict.Accept? then (Nothing, Spec(UpdWrite(id, want, payload, db.rows[id])))
      else (Nothing, Done(Rejected(verdict)))
    case UpdWrite(id, _, payload, found) =>
      (WriteSpec(id, found.version + 1, payload), Spec(UpdEvent(id)))
    case UpdEvent(id) => (Enqueue(id, UpdateEvent, None), Done(Completed))
  }

  function PlanDeleter(cfg: Config, db: Db, d: Deleter, c: Choice): (Effect, Proc)
  {
    match d
    case DelLock(id) => (Take(cfg.hash(ResourceLock(id))), Deletion(DelRead(id)))
    case DelRead(id) =>
      if id !in db.rows then (Nothing, Done(Rejected(NotFound)))
      else if db.rows[id].Live() then (Nothing, Deletion(DelSoft(id)))
      else if cfg.interval <= 0 then (Nothing, Done(Disabled))
      else (Nothing, Deletion(RepFind(id, db.rows[id].inc)))
    case DelSoft(id) => (MarkDeleted(id), Deletion(DelEvent(id, Hit(db, Some(id)))))
    case DelEvent(id, cause) => (Enqueue(id, DeleteEvent, cause), Done(Completed))
    case RepFind(id, inc) =>
      if c.ok then (Nothing, Deletion(RepCheck(id, inc, c.latest)))
      else (Nothing, Done(LookupFailed))
    case RepCheck(id, inc, latest) =>
      if latest.Some? && db.clock - latest.value < cfg.interval
      then (Nothing, Done(Throttled(latest.value)))
      else (Nothing, Deletion(RepEvent(id, inc)))
    case RepEvent(id, inc) => (Enqueue(id, DeleteEvent, Some(inc)), Done(Completed))
  }

  function PlanReporter(cfg: Config, db: Db, r: Reporter): (Effect, Proc)
  {
    match r
    case StaGet(id, consumer, status, gone) =>
      if id !in db.rows then (Nothing, Done(Rejected(NotFound)))
      else if db.rows[id].consumer != consumer then (Nothing, Done(Failed))
      else if gone then (Nothing, Feedback(StaDrop(id)))
      else (Nothing, Feedback(StaLock(id, status)))
    case StaDrop(id) => (Remove(id), Done(Completed))
    case StaLock(id, status) => (Take(cfg.hash(StatusLock(id))), Feedback(StaRead(id, status)))
    case StaRead(id, status) =>
      var verdict := Judge(cfg.valid, db.Find(id), Report(status));
      if verdict.Accept? then (Nothing, Feedback(StaWrite(id, status, db.rows[id])))
      else (Nothing, Done(Rejected(verdict)))
    case StaWrite(id, status, _) => (WriteStatus(id, status), Done(Completed))
  }

  /** The next handler to run, or the final save when all have returned success. */
  function Handling(cfg: Config, eid: nat, event: Event, k: nat, locked: bool): Proc
  {
    if event.kind in cfg.handlers && k < cfg.handlers[event.kind]
    then Work(EvRow(eid, event, k, locked))
    else Work(EvSave(eid, event, locked))
  }

  function PlanWorker(cfg: Config, s: State, w: Worker, c: Choice): (Effect, Proc)
  {
    var db := s.db;
    match w
    case EvLock(eid) =>
      var key := cfg.hash(EventLock(eid));
      if key in s.locks then (Nothing, Done(Busy)) else (Take(key), Work(EvGet(eid, true)))
    case PreGet(eid) =>
      if eid !in db.events then (Nothing, Done(Failed))
      else if db.events[eid].reconciled then (Nothing, Done(Skipped))
      else (Nothing, Work(PreRow(eid, db.events[eid])))
    case PreRow(eid, event) =>
      if event.sourceId !in db.rows then (Nothing, Work(PreSave(eid, event)))
      else if c.ok then (Nothing, Work(EvGet(eid, false))) else (Nothing, Done(Skipped))
    case PreSave(eid, event) => (Reconcile(eid, event), Done(Skipped))
    case EvGet(eid, locked) =>
      if eid !in db.events || db.events[eid].reconciled || db.events[eid].kind !in cfg.handlers
      then (Nothing, Done(Skipped))
      else (Nothing, Handling(cfg, eid, db.events[eid], 0, locked))
    case EvRow(eid, event, k, locked) =>
      if event.sourceId !in db.rows then (Nothing, Handling(cfg, eid, event, k + 1, locked))
      else
        var row := db.rows[event.sourceId];
        if event.kind.DeleteEvent? && locked && row.Live() then
          // the message queue handler insists on the mark, the gRPC broker does not
          (Nothing, Done(Failed))
        else if !event.kind.DeleteEvent? && !row.Live() then
          (Nothing, Handling(cfg, eid, event, k + 1, locked))
        else (Nothing, Work(EvSend(eid, event, k, row, |s.log|, locked)))
    case EvSend(eid, event, k, row, _, locked) =>
      if c.ok then (Publish(event.kind, event.sourceId), Handling(cfg, eid, event, k + 1, locked))
      else (Nothing, Done(Failed))
    case EvSave(eid, event, _) => (Reconcile(eid, event), Done(Completed))
  }

  function PlanChecker(cfg: Config, s: State, k: Checker, c: Choice): (Effect, Proc)
  {
    match k
    case OldLock =>
      var key := cfg.hash(StaleCheckLock);
      if key in s.locks then (Nothing, Done(Busy)) else (Take(key), Check(OldNow))
    case OldNow => (Nothing, Check(OldRun(s.db.clock)))
    case OldRun(_) => (RetireAll(c.picked), Done(Retired(|c.picked|)))
    case NewLock =>
      var key := cfg.hash(UndeliveredCheckLock);
      if key in s.locks then (Nothing, Done(Busy)) else (Take(key), Check(NewLoop))
    case NewLoop =>
      if c.ok && !c.kind.DeleteEvent? then (Enqueue(c.id, c.kind, None), Check(NewLoop))
      else (Nothing, Done(Completed))
  }

  /** One step of the process at `q`: its effect and where it goes next. */
  function Plan(cfg: Config, s: State, q: Proc, c: Choice): (Effect, Proc)
  {
    match q
    case Spec(w) => PlanWriter(cfg, s.db, w)
    case Deletion(d) => PlanDeleter(cfg, s.db, d, c)
    case Feedback(r) => PlanReporter(cfg, s.db, r)
    case Work(k) => PlanWorker(cfg, s, k, c)
    case Check(k) => PlanChecker(cfg, s, k, c)
    case Done(_) => (Nothing, q)
  }

  function Act(db: Db, e: Effect): Db
  {
    match e
    case Insert(id, consumer, version, payload) => AddRow(db, id, consumer, version, payload)
    case WriteSpec(id, version, payload) => SetSpec(db, id, version, payload)
    case WriteStatus(id, status) => SetStatus(db, id, status)
    case MarkDeleted(id) => SoftDelete(db, id)
    case Remove(id) => HardDelete(db, id)
    case Enqueue(id, kind, cause) => AddEvent(db, id, kind, cause)
    case Reconcile(eid, event) => SaveReconciled(db, eid, event)
    case RetireAll(picked) => Store.Retire(db, picked)
    case _ => db
  }

  ghost predicate Can(cfg: Config, s: State, a: Action)
  {
    match a
    case Spawn(start) => IsStart(start)
    case Go(p, c) =>
      && p in s.procs
      && (match s.procs[p]
          case Spec(w) => w.UpdLock? ==> cfg.hash(ResourceLock(w.id)) !in s.locks
          case Deletion(d) =>
            && (d.DelLock? ==> cfg.hash(ResourceLock(d.id)) !in s.locks)
            && (d.RepFind? ==> IsLatestDelete(s.db, d.id, c.latest))
          case Feedback(r) => r.StaLock? ==> cfg.hash(StatusLock(r.id)) !in s.locks
          case Work(_) => true
          case Check(k) => k.OldRun? ==> IsBatch(s.db, k.now - cfg.threshold, c.picked)
          case Done(_) => false)
    case End(p) => p in s.procs
    case Tick(_) => true
    case Purge => true
  }

  function Release(locks: map<Key, Pid>, p: Pid): map<Key, Pid>
  {
    map key | key in locks && locks[key] != p :: locks[key]
  }

  function Record(db: Db, p: Pid, q: Proc, e: Effect): Entry
  {
    Entry(p, q, e, Hit(db, Subject(q)))
  }

  function Move(s: State, p: Pid, e: Effect, next: Proc, entry: Entry): State
  {
    State(Act(s.db, e), if e.Take? then s.locks[e.key := p] else s.locks, s.procs[p := next],
          s.nextPid, s.log + [entry])
  }

  function Next(cfg: Config, s: State, a: Action): State
  {
    match a
    case Spawn(start) => s.(procs := s.procs[s.nextPid := start], nextPid := s.nextPid + 1)
    case Go(p, c) =>
      if p !in s.procs then s
      else
        var (e, next) := Plan(cfg, s, s.procs[p], c);
        Move(s, p, e, next, Record(s.db, p, s.procs[p], e))
    case End(p) => s.(procs := s.procs - {p}, locks := Release(s.locks, p))
    case Tick(seconds) => s.(db := s.db.(clock := s.db.clock + seconds))
    case Purge => s.(db := PurgeReconciled(s.db))
  }

  /** A run: every action is enabled where it is taken. */
  ghost predicate IsRun(cfg: Config, s: State, run: seq<Action>)
    decreases run
  {
    run == [] || (Can(cfg, s, run[0]) && IsRun(cfg, Next(cfg, s, run[0]), run[1..]))
  }

  function Exec(cfg: Config, s: State, run: seq<Action>): State
    decreases run
  {
    if run == [] then s else Exec(cfg, Next(cfg, s, run[0]), run[1..])
  }
}
