/** The step system and the code as it runs say the same: a process that is not interrupted does
    what the call of the resource service promises. */
module Solo {
  import opened Wrappers
  import opened Store
  import opened System
  import Service

  /** So many steps of one process and nobody else lead from `s` to `t`. */
  ghost predicate Alone(cfg: Config, s: State, p: Pid, c: Choice, n: nat, t: State)
    decreases n
  {
    if n == 0 then s == t
    else Can(cfg, s, Go(p, c)) && Alone(cfg, Next(cfg, s, Go(p, c)), p, c, n - 1, t)
  }

  /** One step, given what it does. */
  lemma Step(cfg: Config, s: State, p: Pid, c: Choice, e: Effect, next: Proc) returns (t: State)
    requires Can(cfg, s, Go(p, c)) && Plan(cfg, s, s.procs[p], c) == (e, next)
    ensures t == Next(cfg, s, Go(p, c)) && p in t.procs && t.procs[p] == next
    ensures t.db == Act(s.db, e)
    ensures t.locks == if e.Take? then s.locks[e.key := p] else s.locks
  {
    t := Next(cfg, s, Go(p, c));
  }

  lemma Before(cfg: Config, s: State, p: Pid, c: Choice, n: nat, t: State)
    requires Can(cfg, s, Go(p, c)) && Alone(cfg, Next(cfg, s, Go(p, c)), p, c, n, t)
    ensures Alone(cfg, s, p, c, n + 1, t)
  {}

  lemma CreateAlone(cfg: Config, s: State, p: Pid, c: Choice,
                    id: Id, consumer: string, version: int, payload: string)
    returns (n: nat, t: State)
    requires p in s.procs && s.procs[p] == Spec(CreRow(id, consumer, version, payload))
    ensures Alone(cfg, s, p, c, n, t) && p in t.procs
    ensures var v := Judge(cfg.valid, s.db.Find(id),
                           Create(s.db.nextInc, consumer, version, payload, s.db.clock));
            && t.procs[p] == Done(if v.Accept? then Completed else Rejected(v))
            && Service.Created(cfg.valid, s.db, t.db, Service.Replied(v), true, id, consumer, version, payload)
  {
    var (e, next) := Plan(cfg, s, s.procs[p], c);
    var s1 := Step(cfg, s, p, c, e, next);
    n, t := 1, s1;
    if next.Spec? {
      t := Step(cfg, s1, p, c, Enqueue(id, CreateEvent, None), Done(Completed));
      n := 2;
      Before(cfg, s1, p, c, 0, t);
    }
    Before(cfg, s, p, c, n - 1, t);
  }

  lemma WriteAlone(cfg: Config, s: State, p: Pid, c: Choice, id: Id, want: int, payload: string, found: Row)
    returns (t: State)
    requires p in s.procs && s.procs[p] == Spec(UpdWrite(id, want, payload, found)) && found.version == want
    ensures Alone(cfg, s, p, c, 2, t) && p in t.procs && t.procs[p] == Done(Completed)
    ensures t.db == AddEvent(SetSpec(s.db, id, want + 1, payload), id, UpdateEvent, None)
  {
    var s1 := Step(cfg, s, p, c, WriteSpec(id, want + 1, payload), Spec(UpdEvent(id)));
    t := Step(cfg, s1, p, c, Enqueue(id, UpdateEvent, None), Done(Completed));
    Before(cfg, s1, p, c, 0, t);
    Before(cfg, s, p, c, 1, t);
  }

  lemma UpdateAlone(cfg: Config, s: State, p: Pid, c: Choice, id: Id, want: int, payload: string)
    returns (n: nat, t: State)
    requires p in s.procs && s.procs[p] == Spec(UpdLock(id, want, payload))
    requires cfg.hash(ResourceLock(id)) !in s.locks
    ensures Alone(cfg, s, p, c, n, t) && p in t.procs
    ensures var v := Judge(cfg.valid, s.db.Find(id), Update(want, payload));
            && t.procs[p] == Done(if v.Accept? then Completed else Rejected(v))
            && Service.Updated(cfg.valid, s.db, t.db, Service.Replied(v), id, want, payload)
  {
    var s1 := Step(cfg, s, p, c, Take(cfg.hash(ResourceLock(id))), Spec(UpdRead(id, want, payload)));
    var (e, next) := Plan(cfg, s1, s1.procs[p], c);
    var s2 := Step(cfg, s1, p, c, e, next);
    var m := 0;
    t := s2;
    if next.Spec? {
      t := WriteAlone(cfg, s2, p, c, id, want, payload, s.db.rows[id]);
      m := 2;
    }
    n := m + 2;
    Before(cfg, s1, p, c, m, t);
    Before(cfg, s, p, c, m + 1, t);
  }

  lemma ReportAlone(cfg: Config, s: State, p: Pid, c: Choice, id: Id, status: Status)
    returns (n: nat, t: State)
    requires p in s.procs && s.procs[p] == Feedback(StaLock(id, status))
    requires cfg.hash(StatusLock(id)) !in s.locks
    ensures Alone(cfg, s, p, c, n, t) && p in t.procs
    ensures var v := Judge(cfg.valid, s.db.Find(id), Report(status));
            && t.procs[p] == Done(if v.Accept? then Completed else Rejected(v))
            && Service.Reported(cfg.valid, s.db, t.db, Service.Replied(v), v.Accept?, id, status)
  {
    var s1 := Step(cfg, s, p, c, Take(cfg.hash(StatusLock(id))), Feedback(StaRead(id, status)));
    var m;
    m, t := JudgeAlone(cfg, s1, p, c, id, status);
    n := m + 1;
    Before(cfg, s, p, c, m, t);
  }

  lemma JudgeAlone(cfg: Config, s: State, p: Pid, c: Choice, id: Id, status: Status)
    returns (n: nat, t: State)
    requires p in s.procs && s.procs[p] == Feedback(StaRead(id, status))
    ensures Alone(cfg, s, p, c, n, t) && p in t.procs
    ensures var v := Judge(cfg.valid, s.db.Find(id), Report(status));
            && t.procs[p] == Done(if v.Accept? then Completed else Rejected(v))
            && Service.Reported(cfg.valid, s.db, t.db, Service.Replied(v), v.Accept?, id, status)
  {
    var next := PlanReporter(cfg, s.db, StaRead(id, status)).1;
    var s1 := Step(cfg, s, p, c, Nothing, next);
    n, t := 1, s1;
    if next.Feedback? {
      t := Step(cfg, s1, p, c, WriteStatus(id, status), Done(Completed));
      n := 2;
      Before(cfg, s1, p, c, 0, t);
    }
    Before(cfg, s, p, c, n - 1, t);
  }

  /** HandleStatusUpdate: what it reads decides whether the row goes or its status is reported. */
  lemma StatusUpdateAlone(cfg: Config, s: State, p: Pid, c: Choice,
                          id: Id, consumer: string, status: Status, gone: bool)
    returns (n: nat, t: State)
    requires p in s.procs && s.procs[p] == Feedback(StaGet(id, consumer, status, gone))
    requires cfg.hash(StatusLock(id)) !in s.locks
    ensures Alone(cfg, s, p, c, n, t) && p in t.procs && t.procs[p].Done?
    ensures id !in s.db.rows ==> t.db == s.db && t.procs[p].outcome == Rejected(NotFound)
    ensures id in s.db.rows && s.db.rows[id].consumer != consumer ==>
              t.db == s.db && t.procs[p].outcome == Failed
    ensures id in s.db.rows && s.db.rows[id].consumer == consumer && gone ==>
              t.db == s.db.(rows := s.db.rows - {id}) && t.procs[p].outcome == Completed
    ensures id in s.db.rows && s.db.rows[id].consumer == consumer && !gone ==>
              var v := Judge(cfg.valid, s.db.Find(id), Report(status));
              && t.procs[p].outcome == (if v.Accept? then Completed else Rejected(v))
              && Service.Reported(cfg.valid, s.db, t.db, Service.Replied(v), v.Accept?, id, status)
  {
    var next := PlanReporter(cfg, s.db, s.procs[p].r).1;
    var s1 := Step(cfg, s, p, c, Nothing, next);
    var m := 0;
    t := s1;
    if next.Feedback? && gone {
      t := Step(cfg, s1, p, c, Remove(id), Done(Completed));
      m := 1;
      Before(cfg, s1, p, c, 0, t);
    } else if next.Feedback? {
      m, t := ReportAlone(cfg, s1, p, c, id, status);
    }
    n := m + 1;
    Before(cfg, s, p, c, m, t);
  }

  /** How the service words the outcome of a delete request. */
  function Reply(live: bool, outcome: Outcome): Service.Reply
  {
    match outcome
    case Rejected(v) => Service.Replied(v)
    case Completed => if live then Service.Replied(Accept) else Service.Republished
    case Throttled(latest) => Service.Throttled(latest)
    case Disabled => Service.Disabled
    case LookupFailed => Service.LookupFailed
    case _ => Service.DbError
  }

  lemma MarkAlone(cfg: Config, s: State, p: Pid, c: Choice, id: Id) returns (n: nat, t: State)
    requires p in s.procs && s.procs[p] == Deletion(DelSoft(id)) && id in s.db.rows
    ensures Alone(cfg, s, p, c, n, t) && p in t.procs && t.procs[p] == Done(Completed)
    ensures t.db == AddEvent(SoftDelete(s.db, id), id, DeleteEvent, Some(s.db.rows[id].inc))
  {
    var cause := Some(s.db.rows[id].inc);
    var s1 := Step(cfg, s, p, c, MarkDeleted(id), Deletion(DelEvent(id, cause)));
    t := Step(cfg, s1, p, c, Enqueue(id, DeleteEvent, cause), Done(Completed));
    n := 2;
    Before(cfg, s1, p, c, 0, t);
    Before(cfg, s, p, c, 1, t);
  }

  /** When the latest delete event is old enough all are. */
  lemma NoneIsYoung(db: Db, id: Id, latest: Option<nat>, interval: int)
    requires IsLatestDelete(db, id, latest) && (latest.Some? ==> db.clock - latest.value >= interval)
    ensures forall eid :: db.IsDeleteOf(eid, id) ==> db.events[eid].createdAt + interval <= db.clock
  {
    forall eid | db.IsDeleteOf(eid, id) ensures db.events[eid].createdAt + interval <= db.clock {
      assert eid in db.DeletesOf(id);
    }
  }

  lemma CheckAlone(cfg: Config, s: State, p: Pid, c: Choice, id: Id, inc: nat) returns (n: nat, t: State)
    requires p in s.procs && s.procs[p] == Deletion(RepCheck(id, inc, c.latest))
    requires cfg.interval > 0 && IsLatestDelete(s.db, id, c.latest)
    ensures Alone(cfg, s, p, c, n, t) && p in t.procs && t.procs[p].Done?
    ensures t.procs[p].outcome.Throttled? || t.procs[p].outcome.Completed?
    ensures Service.Repeated(cfg.interval, s.db, t.db, Reply(false, t.procs[p].outcome), id, inc)
  {
    if c.latest.Some? && s.db.clock - c.latest.value < cfg.interval {
      t := Step(cfg, s, p, c, Nothing, Done(Throttled(c.latest.value)));
      n := 1;
    } else {
      NoneIsYoung(s.db, id, c.latest, cfg.interval);
      var s1 := Step(cfg, s, p, c, Nothing, Deletion(RepEvent(id, inc)));
      t := Step(cfg, s1, p, c, Enqueue(id, DeleteEvent, Some(inc)), Done(Completed));
      n := 2;
      Before(cfg, s1, p, c, 0, t);
    }
    Before(cfg, s, p, c, n - 1, t);
  }

  lemma RepeatAlone(cfg: Config, s: State, p: Pid, c: Choice, id: Id, inc: nat) returns (n: nat, t: State)
    requires p in s.procs && s.procs[p] == Deletion(RepFind(id, inc))
    requires cfg.interval > 0 && IsLatestDelete(s.db, id, c.latest)
    ensures Alone(cfg, s, p, c, n, t) && p in t.procs && t.procs[p].Done?
    ensures !t.procs[p].outcome.Rejected?
    ensures Service.Repeated(cfg.interval, s.db, t.db, Reply(false, t.procs[p].outcome), id, inc)
  {
    if c.ok {
      var s1 := Step(cfg, s, p, c, Nothing, Deletion(RepCheck(id, inc, c.latest)));
      var m;
      m, t := CheckAlone(cfg, s1, p, c, id, inc);
      n := m + 1;
    } else {
      t := Step(cfg, s, p, c, Nothing, Done(LookupFailed));
      n := 1;
    }
    Before(cfg, s, p, c, n - 1, t);
  }

  lemma ReadLive(cfg: Config, s: State, p: Pid, c: Choice, id: Id) returns (n: nat, t: State)
    requires p in s.procs && s.procs[p] == Deletion(DelRead(id)) && id in s.db.rows && s.db.rows[id].Live()
    ensures Alone(cfg, s, p, c, n, t) && p in t.procs && t.procs[p] == Done(Completed)
    ensures t.db == AddEvent(SoftDelete(s.db, id), id, DeleteEvent, Some(s.db.rows[id].inc))
  {
    var s1 := Step(cfg, s, p, c, Nothing, Deletion(DelSoft(id)));
    var m;
    m, t := MarkAlone(cfg, s1, p, c, id);
    n := m + 1;
    Before(cfg, s, p, c, m, t);
  }

  lemma ReadMarked(cfg: Config, s: State, p: Pid, c: Choice, id: Id) returns (n: nat, t: State)
    requires p in s.procs && s.procs[p] == Deletion(DelRead(id)) && id in s.db.rows && !s.db.rows[id].Live()
    requires IsLatestDelete(s.db, id, c.latest)
    ensures Alone(cfg, s, p, c, n, t) && p in t.procs && t.procs[p].Done?
    ensures !t.procs[p].outcome.Rejected?
    ensures Service.Repeated(cfg.interval, s.db, t.db, Reply(false, t.procs[p].outcome), id, s.db.rows[id].inc)
  {
    if cfg.interval <= 0 {
      t := Step(cfg, s, p, c, Nothing, Done(Disabled));
      n := 1;
    } else {
      var s1 := Step(cfg, s, p, c, Nothing, Deletion(RepFind(id, s.db.rows[id].inc)));
      var m;
      m, t := RepeatAlone(cfg, s1, p, c, id, s.db.rows[id].inc);
      n := m + 1;
    }
    Before(cfg, s, p, c, n - 1, t);
  }

  lemma ReadAlone(cfg: Config, s: State, p: Pid, c: Choice, id: Id) returns (n: nat, t: State)
    requires p in s.procs && s.procs[p] == Deletion(DelRead(id)) && IsLatestDelete(s.db, id, c.latest)
    ensures Alone(cfg, s, p, c, n, t) && p in t.procs && t.procs[p].Done?
    ensures var live := id in s.db.rows && s.db.rows[id].Live();
            Service.Marked(cfg.valid, cfg.interval, s.db, t.db, Reply(live, t.procs[p].outcome), id)
  {
    if id !in s.db.rows {
      t := Step(cfg, s, p, c, Nothing, Done(Rejected(NotFound)));
      n := 1;
      Before(cfg, s, p, c, 0, t);
    } else if s.db.rows[id].Live() {
      n, t := ReadLive(cfg, s, p, c, id);
    } else {
      n, t := ReadMarked(cfg, s, p, c, id);
    }
  }

  lemma DeleteAlone(cfg: Config, s: State, p: Pid, c: Choice, id: Id) returns (n: nat, t: State)
    requires p in s.procs && s.procs[p] == Deletion(DelLock(id))
    requires cfg.hash(ResourceLock(id)) !in s.locks && IsLatestDelete(s.db, id, c.latest)
    ensures Alone(cfg, s, p, c, n, t) && p in t.procs && t.procs[p].Done?
    ensures var live := id in s.db.rows && s.db.rows[id].Live();
            Service.Marked(cfg.valid, cfg.interval, s.db, t.db, Reply(live, t.procs[p].outcome), id)
  {
    var s1 := Step(cfg, s, p, c, Take(cfg.hash(ResourceLock(id))), Deletion(DelRead(id)));
    var m;
    m, t := ReadAlone(cfg, s1, p, c, id);
    n := m + 1;
    Before(cfg, s, p, c, m, t);
  }
}
