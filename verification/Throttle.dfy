/** Delete requests (MarkAsDeleting and the stale delete detector): republished delete events are
    throttled, interrupted deletes heal, and the backlog of a stuck resource stays bounded. */
module Throttle {
  import opened Wrappers
  import opened Store
  import opened System
  import opened Discipline
  import opened Incarnations
  import Spacing

  /** In every reachable state two stored delete events of one incarnation that were never put
      back after a purge are at least the republish interval apart, and no two exist at all when
      republishing is off. */
  lemma DeleteEventsApart(cfg: Config, s: State, e: nat, f: nat, id: Id, inc: nat)
    requires Reachable(cfg, s) && e != f
    requires Open(s.db, e, id, inc) && Open(s.db, f, id, inc)
    ensures Apart(cfg, s.db.events[e].createdAt, s.db.events[f].createdAt)
  {
    ReachableIsGood(cfg, s);
  }

  /** Unreconciled events are never put back ones, so the throttle holds for all of those. */
  lemma PendingDeletesApart(cfg: Config, s: State, e: nat, f: nat, id: Id, inc: nat)
    requires Reachable(cfg, s) && e != f
    requires e in s.db.events && Announces(s.db.events[e], id, inc) && !s.db.events[e].reconciled
    requires f in s.db.events && Announces(s.db.events[f], id, inc) && !s.db.events[f].reconciled
    ensures Apart(cfg, s.db.events[e].createdAt, s.db.events[f].createdAt)
  {
    ReachableIsGood(cfg, s);
    assert Open(s.db, e, id, inc) && Open(s.db, f, id, inc);
  }

  // Saving an event writes the whole row, so it puts an event back that was purged meanwhile. That
  // is the one way stored delete events escape the throttle.

  /** A stored delete event of the incarnation, put back or not. */
  ghost predicate IsStored(db: Db, eid: nat, id: Id, inc: nat)
  {
    eid in db.events && Announces(db.events[eid], id, inc)
  }

  /** Any two stored delete events of one incarnation keep the interval. */
  ghost predicate AllApart(cfg: Config, db: Db)
  {
    forall e, f, id, inc :: e != f && IsStored(db, e, id, inc) && IsStored(db, f, id, inc) ==>
      Apart(cfg, db.events[e].createdAt, db.events[f].createdAt)
  }

  /** The effect saves a delete event after its purge, too close to a stored one of its incarnation,
      or inserts one too close to one that was put back. */
  ghost predicate TooClose(cfg: Config, db: Db, e: Effect)
  {
    match e
    case Reconcile(eid, event) =>
      && eid !in db.events && event.cause.Some?
      && exists f :: IsStored(db, f, event.sourceId, event.cause.value) && event.kind.DeleteEvent?
                     && !Apart(cfg, event.createdAt, db.events[f].createdAt)
    case Enqueue(id, kind, cause) =>
      && kind.DeleteEvent? && cause.Some?
      && exists f :: IsStored(db, f, id, cause.value) && db.events[f].revived
                     && !Apart(cfg, db.events[f].createdAt, db.clock)
    case _ => false
  }

  lemma InsertKeepsApartIff(cfg: Config, db: Db, id: Id, inc: nat)
    requires DbOk(db) && AllApart(cfg, db) && Allowed(cfg, db, Enqueue(id, DeleteEvent, Some(inc)))
    ensures var e := Enqueue(id, DeleteEvent, Some(inc));
            AllApart(cfg, Act(db, e)) <==> !TooClose(cfg, db, e)
  {
    var e := Enqueue(id, DeleteEvent, Some(inc));
    var db', eid := Act(db, e), db.nextEvent;
    assert IsStored(db', eid, id, inc);
    assert forall f, i, k :: f != eid ==> (IsStored(db', f, i, k) <==> IsStored(db, f, i, k));
    if TooClose(cfg, db, e) {
      var f :| IsStored(db, f, id, inc) && db.events[f].revived && !Apart(cfg, db.events[f].createdAt, db.clock);
      assert IsStored(db', f, id, inc);
    } else {
      forall f | IsStored(db, f, id, inc) ensures Apart(cfg, db.events[f].createdAt, db.clock) {
        if !db.events[f].revived { assert Open(db, f, id, inc); }
      }
    }
  }

  lemma SaveKeepsApartIff(cfg: Config, db: Db, eid: nat, event: Event)
    requires DbOk(db) && AllApart(cfg, db) && FromStore(db, eid, event)
    ensures AllApart(cfg, SaveReconciled(db, eid, event)) <==> !TooClose(cfg, db, Reconcile(eid, event))
  {
    var db' := SaveReconciled(db, eid, event);
    assert forall f, i, k :: f != eid ==> (IsStored(db', f, i, k) <==> IsStored(db, f, i, k));
    if TooClose(cfg, db, Reconcile(eid, event)) {
      var id, inc := event.sourceId, event.cause.value;
      var f :| IsStored(db, f, id, inc) && !Apart(cfg, event.createdAt, db.events[f].createdAt);
      assert IsStored(db', eid, id, inc) && IsStored(db', f, id, inc);
    } else if eid in db.events {
      assert forall i, k :: IsStored(db', eid, i, k) <==> IsStored(db, eid, i, k);
    }
  }

  lemma FewerApart(cfg: Config, db: Db, db': Db)
    requires AllApart(cfg, db)
    requires forall e, id, inc :: IsStored(db', e, id, inc) ==>
               IsStored(db, e, id, inc) && db.events[e].createdAt == db'.events[e].createdAt
    ensures AllApart(cfg, db')
  {}

  /** A step makes two stored delete events of an incarnation closer than the interval if and only if
      it saves one too late and too close, or inserts one too close to one that was saved too late. */
  lemma StaysApartIff(cfg: Config, s: State, a: Action)
    requires Good(cfg, s) && Can(cfg, s, a) && AllApart(cfg, s.db)
    ensures AllApart(cfg, Next(cfg, s, a).db) <==>
            !(a.Go? && TooClose(cfg, s.db, Plan(cfg, s, s.procs[a.p], a.choice).0))
  {
    if a.Go? {
      var e := Plan(cfg, s, s.procs[a.p], a.choice).0;
      PlanAllowed(cfg, s, s.procs[a.p], a.choice);
      EffectKeepsApartIff(cfg, s.db, e);
    } else {
      FewerApart(cfg, s.db, Next(cfg, s, a).db);
    }
  }

  lemma EffectKeepsApartIff(cfg: Config, db: Db, e: Effect)
    requires DbOk(db) && AllApart(cfg, db) && Allowed(cfg, db, e)
    ensures AllApart(cfg, Act(db, e)) <==> !TooClose(cfg, db, e)
  {
    if e.Enqueue? && e.cause.Some? {
      InsertKeepsApartIff(cfg, db, e.id, e.cause.value);
    } else if e.Reconcile? {
      SaveKeepsApartIff(cfg, db, e.eid, e.event);
    } else {
      FewerApart(cfg, db, Act(db, e));
    }
  }

  ghost predicate AlwaysApart(cfg: Config, s: State, run: seq<Action>)
    decreases run
  {
    AllApart(cfg, s.db) && (run == [] || AlwaysApart(cfg, Next(cfg, s, run[0]), run[1..]))
  }

  ghost predicate NeverTooClose(cfg: Config, s: State, run: seq<Action>)
    decreases run
  {
    run == [] || (!(run[0].Go? && run[0].p in s.procs
                    && TooClose(cfg, s.db, Plan(cfg, s, s.procs[run[0].p], run[0].choice).0))
                  && NeverTooClose(cfg, Next(cfg, s, run[0]), run[1..]))
  }

  /** The stored delete events keep the interval all along a run if and only if it has no such step. */
  lemma {:induction false} AlwaysApartIff(cfg: Config, s: State, run: seq<Action>)
    requires Good(cfg, s) && AllApart(cfg, s.db) && IsRun(cfg, s, run)
    ensures AlwaysApart(cfg, s, run) <==> NeverTooClose(cfg, s, run)
    decreases run
  {
    if run != [] {
      StaysApartIff(cfg, s, run[0]);
      StepKeepsGood(cfg, s, run[0]);
      var t := Next(cfg, s, run[0]);
      if AllApart(cfg, t.db) { AlwaysApartIff(cfg, t, run[1..]); }
    }
  }

  /** The step saves an event that is no longer stored. */
  predicate SavesLate(cfg: Config, s: State, a: Action)
  {
    && a.Go? && a.p in s.procs
    && var e := Plan(cfg, s, s.procs[a.p], a.choice).0;
    e.Reconcile? && e.eid !in s.db.events
  }

  ghost predicate NoneRevived(db: Db)
  {
    forall eid :: eid in db.events ==> !db.events[eid].revived
  }

  lemma EffectRevives(cfg: Config, db: Db, e: Effect)
    requires DbOk(db) && Allowed(cfg, db, e) && NoneRevived(db) && !(e.Reconcile? && e.eid !in db.events)
    ensures NoneRevived(Act(db, e))
  {}

  ghost predicate IsPunctual(cfg: Config, s: State, run: seq<Action>)
    decreases run
  {
    run == [] || (!SavesLate(cfg, s, run[0]) && IsPunctual(cfg, Next(cfg, s, run[0]), run[1..]))
  }

  lemma {:induction false} PunctualRunsReviveNone(cfg: Config, s: State, run: seq<Action>)
    requires Good(cfg, s) && NoneRevived(s.db) && IsRun(cfg, s, run) && IsPunctual(cfg, s, run)
    ensures NoneRevived(Exec(cfg, s, run).db)
    decreases run
  {
    if run != [] {
      StepKeepsGood(cfg, s, run[0]);
      if run[0].Go? {
        PlanAllowed(cfg, s, s.procs[run[0].p], run[0].choice);
        EffectRevives(cfg, s.db, Plan(cfg, s, s.procs[run[0].p], run[0].choice).0);
      }
      PunctualRunsReviveNone(cfg, Next(cfg, s, run[0]), run[1..]);
    }
  }

  /** Over runs that save no event after its purge, any two stored delete events of an incarnation
      are at least the republish interval apart, reconciled ones included. */
  lemma AllDeletesApart(cfg: Config, run: seq<Action>, e: nat, f: nat, id: Id, inc: nat)
    requires IsRun(cfg, Init, run) && IsPunctual(cfg, Init, run)
    requires var db := Exec(cfg, Init, run).db;
             && e != f && e in db.events && f in db.events
             && Announces(db.events[e], id, inc) && Announces(db.events[f], id, inc)
    ensures var db := Exec(cfg, Init, run).db;
            Apart(cfg, db.events[e].createdAt, db.events[f].createdAt)
  {
    PunctualRunsReviveNone(cfg, Init, run);
    RunKeepsGood(cfg, Init, run);
    var db := Exec(cfg, Init, run).db;
    assert Open(db, e, id, inc) && Open(db, f, id, inc);
  }

  // Healing

  /** A delete event that announces the incarnation was inserted at the given time. */
  ghost predicate WasAnnounced(db: Db, id: Id, inc: nat, at: nat)
  {
    exists eid :: eid in db.issued && Announces(db.issued[eid], id, inc) && db.issued[eid].createdAt == at
  }

  /** How a delete request can complete. Unless it failed its lookup or ran with republishing off,
      the resource is absent, or the incarnation it dealt with is absent or soft deleted. A request
      that is not throttled has just announced that incarnation. A throttled one found a delete
      event of the identifier younger than the interval, which announces that incarnation if it is
      younger than the mark, while no stored event does if it is older. This is so even when an
      earlier attempt stopped between the soft delete and the insert. */
  lemma CompletedDeleteHeals(cfg: Config, s: State, p: Pid, c: Choice)
    requires Reachable(cfg, s) && Can(cfg, s, Go(p, c))
    requires s.procs[p].Deletion? && Next(cfg, s, Go(p, c)).procs[p].Done?
    ensures
      var d, s' := s.procs[p].d, Next(cfg, s, Go(p, c));
      match s'.procs[p].outcome
      case Rejected(v) => v == NotFound && d.id !in s'.db.rows
      case Disabled => cfg.interval <= 0 && d.id in s'.db.rows && !s'.db.rows[d.id].Live()
      case LookupFailed => d.RepFind? && !c.ok
      case Throttled(at) =>
        && Target(d).Some? && GoneOrDeleted(s'.db, d.id, Target(d).value)
        && WasIssued(s'.db, d.id, at) && s'.db.clock - at < cfg.interval
        && (IsMarkedBefore(s'.db, d.id, Target(d).value, at) ==> WasAnnounced(s'.db, d.id, Target(d).value, at))
        && (IsMarkedAfter(s'.db, d.id, Target(d).value, at) ==>
              forall eid :: !Open(s'.db, eid, d.id, Target(d).value))
      case _ =>
        && WasIssued(s'.db, d.id, s'.db.clock)
        && (Target(d).Some? ==>
              && GoneOrDeleted(s'.db, d.id, Target(d).value)
              && WasAnnounced(s'.db, d.id, Target(d).value, s'.db.clock))
  {
    ReachableIsSound(cfg, s);
    var d := s.procs[p].d;
    var db' := Next(cfg, s, Go(p, c)).db;
    if d.DelEvent? || d.RepEvent? {
      assert db'.issued[s.db.nextEvent].createdAt == db'.clock;
    } else if d.RepCheck? && IsMarkedBefore(s.db, d.id, d.inc, d.latest.value) {
      LaterIsOwn(s.db, d.id, d.inc, d.latest.value);
    } else if d.RepCheck? && IsMarkedAfter(s.db, d.id, d.inc, d.latest.value) {
      EarlierIsForeign(cfg, s.db, d);
    }
  }

  /** The row is stored as this incarnation, marked before the given time. */
  ghost predicate IsMarkedBefore(db: Db, id: Id, inc: nat, at: nat)
  {
    id in db.rows && db.rows[id].inc == inc && !db.rows[id].Live() && db.rows[id].deletedAt.value < at
  }

  ghost predicate IsMarkedAfter(db: Db, id: Id, inc: nat, at: nat)
  {
    id in db.rows && db.rows[id].inc == inc && !db.rows[id].Live() && at < db.rows[id].deletedAt.value
  }

  lemma EarlierIsForeign(cfg: Config, db: Db, d: Deleter)
    requires DbOk(db) && d.RepCheck? && DeleterLocal(cfg, db, d)
    requires d.latest.Some? && IsMarkedAfter(db, d.id, d.inc, d.latest.value)
    ensures forall eid :: !Open(db, eid, d.id, d.inc)
  {
    forall eid ensures !Open(db, eid, d.id, d.inc) {
      assert Open(db, eid, d.id, d.inc) ==> db.IsDeleteOf(eid, d.id) && eid in db.issued;
    }
  }

  lemma LaterIsOwn(db: Db, id: Id, inc: nat, at: nat)
    requires OthersFirst(db) && WasIssued(db, id, at) && IsMarkedBefore(db, id, inc, at)
    ensures WasAnnounced(db, id, inc, at)
  {
    var eid :| eid in db.issued && db.issued[eid].kind.DeleteEvent?
               && db.issued[eid].sourceId == id && db.issued[eid].createdAt == at;
    assert Announces(db.issued[eid], id, inc);
  }

  /** What the lookup of a repeated delete request tells: unless the latest stored delete event of the
      identifier is as old as the mark, a stored one announces the marked incarnation if and only if
      the latest is younger than the mark. At equal times either is possible. */
  lemma LookupTellsIff(cfg: Config, s: State, id: Id, latest: nat)
    requires Reachable(cfg, s) && id in s.db.rows && !s.db.rows[id].Live()
    requires IsLatestDelete(s.db, id, Some(latest)) && latest != s.db.rows[id].deletedAt.value
    ensures (exists eid :: IsStored(s.db, eid, id, s.db.rows[id].inc)) <==> s.db.rows[id].deletedAt.value < latest
  {
    ReachableIsSound(cfg, s);
    var inc := s.db.rows[id].inc;
    if s.db.rows[id].deletedAt.value < latest {
      var eid :| s.db.IsDeleteOf(eid, id) && s.db.events[eid].createdAt == latest;
      assert eid in s.db.issued;
      assert IsStored(s.db, eid, id, inc);
    } else if eid :| IsStored(s.db, eid, id, inc) {
      assert s.db.IsDeleteOf(eid, id) && eid in s.db.issued;
    }
  }

  // With republishing off

  /** The incarnation is marked or gone and was never announced. */
  ghost predicate IsSilent(db: Db, id: Id, inc: nat)
  {
    && GoneOrDeleted(db, id, inc)
    && (forall eid :: eid in db.issued ==> !Announces(db.issued[eid], id, inc))
  }

  /** And nobody is about to announce it. */
  ghost predicate StaysSilent(s: State, id: Id, inc: nat)
  {
    IsSilent(s.db, id, inc)
    && forall p :: p in s.procs ==> s.procs[p] != Deletion(DelEvent(id, Some(inc)))
  }

  lemma PlanIsSilent(cfg: Config, s: State, q: Proc, c: Choice, id: Id, inc: nat)
    requires cfg.interval <= 0 && Local(cfg, s.db, q) && GoneOrDeleted(s.db, id, inc)
    requires q != Deletion(DelEvent(id, Some(inc)))
    ensures var (e, next) := Plan(cfg, s, q, c);
            && next != Deletion(DelEvent(id, Some(inc)))
            && !(e.Enqueue? && e.id == id && e.kind.DeleteEvent? && e.cause == Some(inc))
  {}

  lemma ActIsSilent(db: Db, e: Effect, id: Id, inc: nat)
    requires IsSilent(db, id, inc) && !(e.Enqueue? && e.id == id && e.kind.DeleteEvent? && e.cause == Some(inc))
    ensures IsSilent(Act(db, e), id, inc)
  {}

  lemma StepIsSilent(cfg: Config, s: State, a: Action, id: Id, inc: nat)
    requires cfg.interval <= 0 && Good(cfg, s) && Can(cfg, s, a) && StaysSilent(s, id, inc)
    ensures StaysSilent(Next(cfg, s, a), id, inc)
  {
    if a.Go? {
      PlanIsSilent(cfg, s, s.procs[a.p], a.choice, id, inc);
      ActIsSilent(s.db, Plan(cfg, s, s.procs[a.p], a.choice).0, id, inc);
    }
  }

  /** With republishing off an incarnation that was left marked and unannounced stays so for ever,
      however often its deletion is requested. */
  lemma {:induction false} DisabledNeverHeals(cfg: Config, s: State, run: seq<Action>, id: Id, inc: nat)
    requires cfg.interval <= 0 && Good(cfg, s) && IsRun(cfg, s, run) && StaysSilent(s, id, inc)
    ensures StaysSilent(Exec(cfg, s, run), id, inc)
    decreases run
  {
    if run != [] {
      StepIsSilent(cfg, s, run[0], id, inc);
      StepKeepsGood(cfg, s, run[0]);
      DisabledNeverHeals(cfg, Next(cfg, s, run[0]), run[1..], id, inc);
    }
  }

  // The backlog

  /** The unreconciled delete events of one incarnation created up to a moment. */
  function Backlog(db: Db, id: Id, inc: nat, now: nat): set<nat>
  {
    set eid | eid in db.events && Announces(db.events[eid], id, inc)
              && !db.events[eid].reconciled && db.events[eid].createdAt <= now
  }

  /** An event the pass leaves unreconciled is no older than the threshold. */
  lemma LeftBehind(cfg: Config, s: State, p: Pid, c: Choice, id: Id, eid: nat)
    requires Good(cfg, s) && Can(cfg, s, Go(p, c))
    requires s.procs[p].Check? && s.procs[p].c.OldRun? && |c.picked| < BATCH_SIZE
    requires id in s.db.rows
    requires eid in Backlog(Retire(s.db, c.picked), id, s.db.rows[id].inc, s.procs[p].c.now)
    ensures s.procs[p].c.now - cfg.threshold <= Retire(s.db, c.picked).events[eid].createdAt
    ensures Open(Retire(s.db, c.picked), eid, id, s.db.rows[id].inc)
  {
    assert s.db.events[eid] == Retire(s.db, c.picked).events[eid] && eid !in c.picked;
    assert eid in s.db.issued;
    assert !IsStale(s.db, eid, s.procs[p].c.now - cfg.threshold);
  }

  /** After a stale delete pass that did not fill its batch every stored resource is left with at
      most threshold / interval + 1 unreconciled delete events, as of the pass's clock reading. */
  lemma BacklogBounded(cfg: Config, s: State, p: Pid, c: Choice, id: Id)
    requires Reachable(cfg, s) && Can(cfg, s, Go(p, c))
    requires s.procs[p].Check? && s.procs[p].c.OldRun? && |c.picked| < BATCH_SIZE
    requires cfg.interval > 0 && cfg.threshold >= 0 && id in s.db.rows
    ensures var db' := Next(cfg, s, Go(p, c)).db;
            && id in db'.rows
            && |Backlog(db', id, db'.rows[id].inc, s.procs[p].c.now)|
                 <= cfg.threshold / cfg.interval + 1
  {
    ReachableIsGood(cfg, s);
    StepKeepsGood(cfg, s, Go(p, c));
    var db' := Retire(s.db, c.picked);
    assert Next(cfg, s, Go(p, c)).db == db';
    forall eid | eid in Backlog(db', id, s.db.rows[id].inc, s.procs[p].c.now)
      ensures s.procs[p].c.now - cfg.threshold <= db'.events[eid].createdAt
      ensures Open(db', eid, id, s.db.rows[id].inc)
    {
      LeftBehind(cfg, s, p, c, id, eid);
    }
    RecentAreFew(cfg, db', id, s.db.rows[id].inc, s.procs[p].c.now);
  }

  /** All unreconciled delete events of the identifier created up to a moment. */
  function WholeBacklog(db: Db, id: Id, now: nat): set<nat>
  {
    set eid | eid in db.events && db.IsDeleteOf(eid, id) && !db.events[eid].reconciled
              && db.events[eid].createdAt <= now
  }

  /** Those that a pass leaves for a row marked before its cutoff announce the stored incarnation. */
  lemma LeftIsOwn(cfg: Config, s: State, p: Pid, c: Choice, id: Id, eid: nat)
    requires Sound(cfg, s) && Can(cfg, s, Go(p, c))
    requires s.procs[p].Check? && s.procs[p].c.OldRun? && |c.picked| < BATCH_SIZE
    requires id in s.db.rows && s.db.rows[id].deletedAt.Some?
    requires s.db.rows[id].deletedAt.value < s.procs[p].c.now - cfg.threshold
    requires eid in WholeBacklog(Retire(s.db, c.picked), id, s.procs[p].c.now)
    ensures eid in Backlog(Retire(s.db, c.picked), id, s.db.rows[id].inc, s.procs[p].c.now)
  {
    assert s.db.events[eid] == Retire(s.db, c.picked).events[eid] && eid !in c.picked;
    assert eid in s.db.issued;
    assert !IsStale(s.db, eid, s.procs[p].c.now - cfg.threshold);
  }

  /** So for a row marked before the cutoff the bound holds of all delete events of the identifier,
      whichever incarnation they announce. */
  lemma WholeBacklogBounded(cfg: Config, s: State, p: Pid, c: Choice, id: Id)
    requires Reachable(cfg, s) && Can(cfg, s, Go(p, c))
    requires s.procs[p].Check? && s.procs[p].c.OldRun? && |c.picked| < BATCH_SIZE
    requires cfg.interval > 0 && cfg.threshold >= 0
    requires id in s.db.rows && s.db.rows[id].deletedAt.Some?
    requires s.db.rows[id].deletedAt.value < s.procs[p].c.now - cfg.threshold
    ensures var db' := Next(cfg, s, Go(p, c)).db;
            |WholeBacklog(db', id, s.procs[p].c.now)| <= cfg.threshold / cfg.interval + 1
  {
    ReachableIsSound(cfg, s);
    BacklogBounded(cfg, s, p, c, id);
    var db' := Retire(s.db, c.picked);
    assert Next(cfg, s, Go(p, c)).db == db';
    forall eid | eid in WholeBacklog(db', id, s.procs[p].c.now)
      ensures eid in Backlog(db', id, s.db.rows[id].inc, s.procs[p].c.now)
    {
      LeftIsOwn(cfg, s, p, c, id, eid);
    }
    assert WholeBacklog(db', id, s.procs[p].c.now) == Backlog(db', id, s.db.rows[id].inc, s.procs[p].c.now);
  }

  /** For any other row the pass retires nothing. */
  lemma OtherBacklogsStay(cfg: Config, s: State, p: Pid, c: Choice, id: Id)
    requires Can(cfg, s, Go(p, c)) && s.procs[p].Check? && s.procs[p].c.OldRun?
    requires id in s.db.rows && s.db.rows[id].deletedAt.Some? ==>
               s.procs[p].c.now - cfg.threshold <= s.db.rows[id].deletedAt.value
    ensures var now := s.procs[p].c.now;
            WholeBacklog(Next(cfg, s, Go(p, c)).db, id, now) == WholeBacklog(s.db, id, now)
  {
    var db' := Retire(s.db, c.picked);
    assert Next(cfg, s, Go(p, c)).db == db';
    forall eid | eid in s.db.events && s.db.IsDeleteOf(eid, id) ensures db'.events[eid] == s.db.events[eid] {
      assert !IsStale(s.db, eid, s.procs[p].c.now - cfg.threshold);
    }
  }

  lemma RecentAreFew(cfg: Config, db: Db, id: Id, inc: nat, now: nat)
    requires WellSpaced(cfg, db) && cfg.interval > 0 && cfg.threshold >= 0
    requires forall eid :: eid in Backlog(db, id, inc, now) ==>
               now - cfg.threshold <= db.events[eid].createdAt && Open(db, eid, id, inc)
    ensures |Backlog(db, id, inc, now)| <= cfg.threshold / cfg.interval + 1
  {
    var x := Backlog(db, id, inc, now);
    var at := (eid: nat) => if eid in db.events then db.events[eid].createdAt as int else 0;
    Spacing.CountInStretch(x, at, cfg.interval, now - cfg.threshold, cfg.threshold);
  }
}
