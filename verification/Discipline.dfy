/** What every step of every process keeps: locks are held where the code believes they are, and
    what a process read under its lock is still true when it writes. */
module Discipline {
  import opened Wrappers
  import opened Store
  import opened System

  /** The lock the process took on its way to `q`. */
  function Holds(q: Proc): Option<LockName>
  {
    match q
    case Spec(w) =>
      if w.UpdRead? || w.UpdWrite? || w.UpdEvent? then Some(ResourceLock(w.id)) else None
    case Deletion(d) => if d.DelLock? then None else Some(ResourceLock(d.id))
    case Feedback(r) => if r.StaRead? || r.StaWrite? then Some(StatusLock(r.id)) else None
    case Work(k) =>
      if (k.EvGet? || k.EvRow? || k.EvSend? || k.EvSave?) && k.locked then Some(EventLock(k.eid))
      else None
    case Check(k) =>
      if k.OldNow? || k.OldRun? then Some(StaleCheckLock)
      else if k.NewLoop? then Some(UndeliveredCheckLock)
      else None
    case Done(_) => None
  }

  ghost predicate Locked(cfg: Config, s: State)
  {
    && (forall p :: p in s.procs ==> p < s.nextPid)
    && (forall p :: p in s.procs && Holds(s.procs[p]).Some? ==>
          var key := cfg.hash(Holds(s.procs[p]).value);
          key in s.locks && s.locks[key] == p)
  }

  lemma HoldsNext(cfg: Config, s: State, q: Proc, c: Choice)
    ensures var (e, next) := Plan(cfg, s, q, c);
            Holds(next).Some? ==>
              Holds(next) == Holds(q) || e == Take(cfg.hash(Holds(next).value))
  {
  }

  lemma TakesFreeLock(cfg: Config, s: State, p: Pid, c: Choice)
    requires Can(cfg, s, Go(p, c))
    ensures var e := Plan(cfg, s, s.procs[p], c).0; e.Take? ==> e.key !in s.locks
  {
  }

  lemma StepKeepsLocked(cfg: Config, s: State, a: Action)
    requires Locked(cfg, s) && Can(cfg, s, a)
    ensures Locked(cfg, Next(cfg, s, a))
  {
    match a
    case Go(p, c) => HoldsNext(cfg, s, s.procs[p], c); TakesFreeLock(cfg, s, p, c);
    case _ =>
  }

  ghost predicate NoOrphans(s: State) { forall key :: key in s.locks ==> s.locks[key] in s.procs }

  lemma StepLeavesNoOrphan(cfg: Config, s: State, a: Action)
    requires NoOrphans(s) && Can(cfg, s, a)
    ensures NoOrphans(Next(cfg, s, a))
  {}

  /** In every run a lock that is held is held by a process that has not ended. */
  lemma {:induction false} NoOrphanLocks(cfg: Config, s: State, run: seq<Action>)
    requires NoOrphans(s) && IsRun(cfg, s, run)
    ensures NoOrphans(Exec(cfg, s, run))
    decreases run
  {
    if run != [] {
      StepLeavesNoOrphan(cfg, s, run[0]);
      NoOrphanLocks(cfg, Next(cfg, s, run[0]), run[1..]);
    }
  }

  /** No two processes are past the same lock, whatever else hashes to it. */
  lemma Exclusive(cfg: Config, s: State, p: Pid, q: Pid)
    requires Locked(cfg, s)
    requires p in s.procs && q in s.procs
    requires Holds(s.procs[p]).Some? && Holds(s.procs[p]) == Holds(s.procs[q])
    ensures p == q
  {
  }

  /** The lock that guards an effect, if any. */
  function Guard(e: Effect): Option<LockName>
  {
    match e
    case WriteSpec(id, _, _) => Some(ResourceLock(id))
    case MarkDeleted(id) => Some(ResourceLock(id))
    case Enqueue(id, kind, _) => if kind.DeleteEvent? then Some(ResourceLock(id)) else None
    case WriteStatus(id, _) => Some(StatusLock(id))
    case _ => None
  }

  /** Spec columns, soft deletes and delete events are written under the resource lock only,
      the status column under the status lock only. */
  lemma GuardedWrites(cfg: Config, s: State, q: Proc, c: Choice)
    ensures var e := Plan(cfg, s, q, c).0; Guard(e).Some? ==> Holds(q) == Guard(e)
  {
  }

  // Delete events of one incarnation

  predicate Announces(e: Event, id: Id, inc: nat)
  {
    e.kind.DeleteEvent? && e.sourceId == id && e.cause == Some(inc)
  }

  /** At least the republish interval apart; with republishing off, never two. */
  ghost predicate Apart(cfg: Config, t: int, u: int)
  {
    cfg.interval > 0 && (t + cfg.interval <= u || u + cfg.interval <= t)
  }

  ghost predicate DbOk(db: Db)
  {
    RowsOk(db) && EventsOk(db) && DeletedFirst(db)
  }

  ghost predicate RowsOk(db: Db)
  {
    forall id :: id in db.rows ==>
      && db.rows[id].inc < db.nextInc && db.rows[id].createdAt <= db.clock
      && (db.rows[id].deletedAt.Some? ==> db.rows[id].deletedAt.value <= db.clock)
  }

  /** Stored events differ from what was inserted in the flags only. */
  ghost predicate EventsOk(db: Db)
  {
    && (forall eid :: eid in db.events ==>
          && eid in db.issued
          && db.events[eid].(reconciled := false, revived := false) == db.issued[eid]
          && (db.events[eid].revived ==> db.events[eid].reconciled))
    && (forall eid :: eid in db.issued ==>
          && eid < db.nextEvent && db.issued[eid].createdAt <= db.clock
          && !db.issued[eid].reconciled && !db.issued[eid].revived
          && (db.issued[eid].cause.Some? ==> db.issued[eid].cause.value < db.nextInc))
  }

  /** The deletion of an incarnation is never announced before it is marked. */
  ghost predicate DeletedFirst(db: Db)
  {
    forall eid :: eid in db.issued && db.issued[eid].cause.Some? ==>
      var id := db.issued[eid].sourceId;
      id in db.rows && db.rows[id].inc == db.issued[eid].cause.value ==>
        && db.rows[id].deletedAt.Some?
        && db.rows[id].deletedAt.value <= db.issued[eid].createdAt
  }

  /** A stored delete event of the incarnation that was never put back after a purge. */
  ghost predicate Open(db: Db, eid: nat, id: Id, inc: nat)
  {
    eid in db.events && Announces(db.events[eid], id, inc) && !db.events[eid].revived
  }

  ghost predicate WellSpaced(cfg: Config, db: Db)
  {
    forall e, f, id, inc :: e != f && Open(db, e, id, inc) && Open(db, f, id, inc) ==>
      Apart(cfg, db.events[e].createdAt, db.events[f].createdAt)
  }

  ghost predicate GoneOrDeleted(db: Db, id: Id, inc: nat)
  {
    inc < db.nextInc && (id in db.rows && db.rows[id].inc == inc ==> db.rows[id].deletedAt.Some?)
  }

  /** A delete event of the resource was inserted at the given time. */
  ghost predicate WasIssued(db: Db, id: Id, at: nat)
  {
    exists eid :: eid in db.issued && db.issued[eid].kind.DeleteEvent?
                  && db.issued[eid].sourceId == id && db.issued[eid].createdAt == at
  }

  // What a process may rely on although others have stepped since it read

  ghost predicate WriterLocal(cfg: Config, db: Db, w: Writer)
  {
    w.UpdWrite? ==>
      && w.found.inc < db.nextInc
      && Judge(cfg.valid, Some(w.found), Update(w.want, w.payload)).Accept?
      && (w.id in db.rows && db.rows[w.id].inc == w.found.inc ==>
            db.rows[w.id].(status := w.found.status) == w.found)
  }

  ghost predicate DeleterLocal(cfg: Config, db: Db, d: Deleter)
  {
    match d
    case DelSoft(id) => id in db.rows ==> db.rows[id].Live()
    case DelEvent(id, cause) =>
      cause.Some? ==>
        GoneOrDeleted(db, id, cause.value) && forall eid :: !Open(db, eid, id, cause.value)
    case RepFind(id, inc) => cfg.interval > 0 && GoneOrDeleted(db, id, inc)
    case RepCheck(id, inc, latest) =>
      && cfg.interval > 0 && GoneOrDeleted(db, id, inc)
      && (latest.Some? ==> WasIssued(db, id, latest.value))
      && (forall eid :: db.IsDeleteOf(eid, id) && !db.events[eid].revived ==>
            latest.Some? && db.events[eid].createdAt <= latest.value)
    case RepEvent(id, inc) =>
      && cfg.interval > 0 && GoneOrDeleted(db, id, inc)
      && (forall eid :: db.IsDeleteOf(eid, id) && !db.events[eid].revived ==>
            db.events[eid].createdAt + cfg.interval <= db.clock)
    case _ => true
  }

  ghost predicate ReporterLocal(cfg: Config, db: Db, r: Reporter)
  {
    r.StaWrite? ==>
      && r.found.inc < db.nextInc
      && Judge(cfg.valid, Some(r.found), Report(r.status)).Accept?
      && (r.id in db.rows && db.rows[r.id].inc == r.found.inc ==>
            db.rows[r.id].status == r.found.status)
  }

  /** The process holds a copy of an event that it read unreconciled. */
  predicate Carries(k: Worker) { k.PreRow? || k.PreSave? || k.EvRow? || k.EvSend? || k.EvSave? }

  ghost predicate Local(cfg: Config, db: Db, q: Proc)
  {
    match q
    case Spec(w) => WriterLocal(cfg, db, w)
    case Deletion(d) => DeleterLocal(cfg, db, d)
    case Feedback(r) => ReporterLocal(cfg, db, r)
    case Work(k) => Carries(k) ==> FromStore(db, k.eid, k.event)
    case Check(k) => k.OldRun? ==> k.now <= db.clock
    case Done(_) => true
  }

  ghost predicate FromStore(db: Db, eid: nat, event: Event)
  {
    eid in db.issued && db.issued[eid] == event
  }

  ghost predicate Good(cfg: Config, s: State)
  {
    && Locked(cfg, s)
    && DbOk(s.db) && WellSpaced(cfg, s.db)
    && (forall p :: p in s.procs ==> Local(cfg, s.db, s.procs[p]))
  }

  // The proof that all runs keep Good

  /** What a process guarantees of the effects it makes. */
  ghost predicate Allowed(cfg: Config, db: Db, e: Effect)
  {
    match e
    case MarkDeleted(id) => id in db.rows ==> db.rows[id].Live()
    case Enqueue(id, kind, cause) =>
      cause.Some? ==>
        && kind.DeleteEvent? && GoneOrDeleted(db, id, cause.value)
        && (forall eid :: Open(db, eid, id, cause.value) ==>
              Apart(cfg, db.events[eid].createdAt, db.clock))
    case Reconcile(eid, event) => FromStore(db, eid, event)
    case _ => true
  }

  lemma PlanAllowed(cfg: Config, s: State, q: Proc, c: Choice)
    requires Local(cfg, s.db, q)
    ensures Allowed(cfg, s.db, Plan(cfg, s, q, c).0)
  {
    if q.Deletion? && q.d.RepEvent? {
      forall eid | Open(s.db, eid, q.d.id, q.d.inc) ensures s.db.IsDeleteOf(eid, q.d.id) {}
    }
  }

  // What another process relies on survives any effect not made under its lock.

  lemma StillIssued(db: Db, e: Effect, id: Id, at: nat)
    requires EventsOk(db) && WasIssued(db, id, at)
    ensures WasIssued(Act(db, e), id, at)
  {
    var eid :| eid in db.issued && db.issued[eid].kind.DeleteEvent?
               && db.issued[eid].sourceId == id && db.issued[eid].createdAt == at;
    assert eid in Act(db, e).issued && Act(db, e).issued[eid] == db.issued[eid];
  }

  /** Under the lock of its resource, a repeated deletion sees no new delete event of it. */
  lemma NoNewDelete(cfg: Config, db: Db, d: Deleter, e: Effect, eid: nat)
    requires DbOk(db) && Allowed(cfg, db, e) && (d.RepCheck? || d.RepEvent?)
    requires Guard(e).Some? ==> Holds(Deletion(d)) != Guard(e)
    requires Act(db, e).IsDeleteOf(eid, d.id) && !Act(db, e).events[eid].revived
    ensures db.IsDeleteOf(eid, d.id) && !db.events[eid].revived
    ensures Act(db, e).events[eid].createdAt == db.events[eid].createdAt
  {}

  lemma StillThrottled(cfg: Config, db: Db, d: Deleter, e: Effect)
    requires DbOk(db) && DeleterLocal(cfg, db, d) && Allowed(cfg, db, e)
    requires d.RepCheck? || d.RepEvent?
    requires Guard(e).Some? ==> Holds(Deletion(d)) != Guard(e)
    ensures DeleterLocal(cfg, Act(db, e), d)
  {
    if d.RepCheck? && d.latest.Some? { StillIssued(db, e, d.id, d.latest.value); }
    var db' := Act(db, e);
    forall eid | db'.IsDeleteOf(eid, d.id) && !db'.events[eid].revived
      ensures db.IsDeleteOf(eid, d.id) && !db.events[eid].revived
      ensures db'.events[eid].createdAt == db.events[eid].createdAt
    {
      NoNewDelete(cfg, db, d, e, eid);
    }
  }

  lemma StableDeleter(cfg: Config, db: Db, d: Deleter, e: Effect)
    requires DbOk(db) && DeleterLocal(cfg, db, d) && Allowed(cfg, db, e)
    requires Guard(e).Some? ==> Holds(Deletion(d)) != Guard(e)
    ensures DeleterLocal(cfg, Act(db, e), d)
  {
    if d.DelEvent? && d.cause.Some? {
      var inc := d.cause.value;
      forall eid | Open(Act(db, e), eid, d.id, inc) ensures Open(db, eid, d.id, inc) {}
    } else if d.RepCheck? || d.RepEvent? {
      StillThrottled(cfg, db, d, e);
    }
  }

  lemma Stable(cfg: Config, db: Db, q: Proc, e: Effect)
    requires DbOk(db) && Local(cfg, db, q) && Allowed(cfg, db, e)
    requires Guard(e).Some? ==> Holds(q) != Guard(e)
    ensures Local(cfg, Act(db, e), q)
  {
    match q
    case Deletion(d) => StableDeleter(cfg, db, d, e);
    case _ =>
  }

  lemma ActKeepsDb(cfg: Config, db: Db, e: Effect)
    requires DbOk(db) && Allowed(cfg, db, e)
    ensures DbOk(Act(db, e))
  {
  }

  lemma FewerOpen(cfg: Config, db: Db, db': Db)
    requires WellSpaced(cfg, db)
    requires forall e, id, inc :: Open(db', e, id, inc) ==>
               Open(db, e, id, inc) && db.events[e].createdAt == db'.events[e].createdAt
    ensures WellSpaced(cfg, db')
  {
  }

  lemma OneMoreOpen(cfg: Config, db: Db, id: Id, inc: nat)
    requires DbOk(db) && WellSpaced(cfg, db)
    requires forall e :: Open(db, e, id, inc) ==> Apart(cfg, db.events[e].createdAt, db.clock)
    ensures WellSpaced(cfg, AddEvent(db, id, DeleteEvent, Some(inc)))
  {
    var db' := AddEvent(db, id, DeleteEvent, Some(inc));
    assert forall e, i, k :: e != db.nextEvent && Open(db', e, i, k) ==> Open(db, e, i, k);
  }

  lemma ActKeepsWellSpaced(cfg: Config, db: Db, e: Effect)
    requires DbOk(db) && WellSpaced(cfg, db) && Allowed(cfg, db, e)
    ensures WellSpaced(cfg, Act(db, e))
  {
    if e.Enqueue? && e.cause.Some? {
      OneMoreOpen(cfg, db, e.id, e.cause.value);
    } else {
      FewerOpen(cfg, db, Act(db, e));
    }
  }

  lemma DeleterKeepsLocal(cfg: Config, db: Db, d: Deleter, c: Choice)
    requires DbOk(db) && DeleterLocal(cfg, db, d)
    requires d.RepFind? ==> IsLatestDelete(db, d.id, c.latest)
    ensures var (e, next) := PlanDeleter(cfg, db, d, c); Local(cfg, Act(db, e), next)
  {
    var (e, next) := PlanDeleter(cfg, db, d, c);
    match d
    case DelSoft(id) =>
      if id in db.rows {
        var inc := db.rows[id].inc;
        assert forall eid :: Open(Act(db, e), eid, id, inc) ==> eid in db.issued;
      }
    case RepFind(id, inc) =>
      assert forall eid :: db.IsDeleteOf(eid, id) ==> eid in db.DeletesOf(id);
    case _ =>
  }

  lemma WorkerKeepsLocal(cfg: Config, s: State, k: Worker, c: Choice)
    requires EventsOk(s.db) && Local(cfg, s.db, Work(k))
    ensures var (e, next) := PlanWorker(cfg, s, k, c); Local(cfg, Act(s.db, e), next)
  {
    match k
    case PreSave(_, _) =>
    case EvSave(_, _, _) =>
    case _ => assert Act(s.db, PlanWorker(cfg, s, k, c).0) == s.db;
  }

  lemma PlanKeepsLocal(cfg: Config, s: State, p: Pid, c: Choice)
    requires DbOk(s.db) && Can(cfg, s, Go(p, c)) && Local(cfg, s.db, s.procs[p])
    ensures var (e, next) := Plan(cfg, s, s.procs[p], c); Local(cfg, Act(s.db, e), next)
  {
    match s.procs[p]
    case Deletion(d) => DeleterKeepsLocal(cfg, s.db, d, c);
    case Work(k) => WorkerKeepsLocal(cfg, s, k, c);
    case _ =>
  }

  lemma MoveKeepsGood(cfg: Config, s: State, p: Pid, e: Effect, next: Proc, entry: Entry)
    requires Good(cfg, s) && p in s.procs && Allowed(cfg, s.db, e)
    requires Guard(e).Some? ==> Holds(s.procs[p]) == Guard(e)
    requires Locked(cfg, Move(s, p, e, next, entry)) && Local(cfg, Act(s.db, e), next)
    ensures Good(cfg, Move(s, p, e, next, entry))
  {
    ActKeepsDb(cfg, s.db, e);
    ActKeepsWellSpaced(cfg, s.db, e);
    forall q | q in s.procs && q != p
      ensures Local(cfg, Act(s.db, e), s.procs[q])
    {
      if Guard(e).Some? && Holds(s.procs[q]) == Guard(e) { Exclusive(cfg, s, p, q); }
      Stable(cfg, s.db, s.procs[q], e);
    }
  }

  lemma GoKeepsGood(cfg: Config, s: State, p: Pid, c: Choice)
    requires Good(cfg, s) && Can(cfg, s, Go(p, c))
    ensures Good(cfg, Next(cfg, s, Go(p, c)))
  {
    var q := s.procs[p];
    var (e, next) := Plan(cfg, s, q, c);
    StepKeepsLocked(cfg, s, Go(p, c));
    GuardedWrites(cfg, s, q, c);
    PlanAllowed(cfg, s, q, c);
    PlanKeepsLocal(cfg, s, p, c);
    MoveKeepsGood(cfg, s, p, e, next, Record(s.db, p, q, e));
  }

  lemma TickKeepsGood(cfg: Config, s: State, a: Action)
    requires Good(cfg, s) && a.Tick?
    ensures Good(cfg, Next(cfg, s, a))
  {
    FewerOpen(cfg, s.db, Next(cfg, s, a).db);
  }

  lemma PurgeKeepsGood(cfg: Config, s: State)
    requires Good(cfg, s)
    ensures Good(cfg, Next(cfg, s, Purge))
  {
    FewerOpen(cfg, s.db, PurgeReconciled(s.db));
  }

  lemma StepKeepsGood(cfg: Config, s: State, a: Action)
    requires Good(cfg, s) && Can(cfg, s, a)
    ensures Good(cfg, Next(cfg, s, a))
  {
    match a
    case Go(p, c) => GoKeepsGood(cfg, s, p, c);
    case Tick(_) => TickKeepsGood(cfg, s, a);
    case Purge => PurgeKeepsGood(cfg, s);
    case _ => StepKeepsLocked(cfg, s, a);
  }

  lemma {:induction false} RunKeepsGood(cfg: Config, s: State, run: seq<Action>)
    requires Good(cfg, s) && IsRun(cfg, s, run)
    ensures Good(cfg, Exec(cfg, s, run))
    decreases run
  {
    if run != [] {
      StepKeepsGood(cfg, s, run[0]);
      RunKeepsGood(cfg, Next(cfg, s, run[0]), run[1..]);
    }
  }

  /** Every state that the replicas can reach from empty tables. */
  ghost predicate Reachable(cfg: Config, s: State)
  {
    exists run :: IsRun(cfg, Init, run) && Exec(cfg, Init, run) == s
  }

  lemma ReachableIsGood(cfg: Config, s: State)
    requires Reachable(cfg, s)
    ensures Good(cfg, s)
  {
    var run :| IsRun(cfg, Init, run) && Exec(cfg, Init, run) == s;
    RunKeepsGood(cfg, Init, run);
  }
}
