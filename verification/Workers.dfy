/** Workers and detector passes that are not interrupted do in the step system what the code of the
    controllers promises: the same tables, and the same requests in the same order. */
module Workers {
  import opened Wrappers
  import opened Store
  import opened System
  import opened Solo
  import Controllers

  /** The requests of a log, in order. */
  function Published(log: seq<Entry>): seq<(Kind, Id)>
  {
    if log == [] then []
    else
      var last := log[|log| - 1].effect;
      Published(log[..|log| - 1]) + if last.Publish? then [(last.kind, last.id)] else []
  }

  /** One step, with what it publishes. */
  lemma WorkStep(cfg: Config, s: State, p: Pid, c: Choice, e: Effect, next: Proc) returns (t: State)
    requires Can(cfg, s, Go(p, c)) && Plan(cfg, s, s.procs[p], c) == (e, next)
    ensures t == Next(cfg, s, Go(p, c)) && p in t.procs && t.procs[p] == next && t.db == Act(s.db, e)
    ensures Published(t.log) == Published(s.log) + if e.Publish? then [(e.kind, e.id)] else []
  {
    t := Step(cfg, s, p, c, e, next);
    assert t.log[..|t.log| - 1] == s.log && t.log[|s.log|].effect == e;
  }

  /** The message queue refuses the delete event of a row that is not marked. */
  predicate IsRefused(db: Db, event: Event, locked: bool)
  {
    locked && event.kind.DeleteEvent? && event.sourceId in db.rows && db.rows[event.sourceId].Live()
  }

  /** `s` is one step before `t`. */
  ghost predicate Precedes(cfg: Config, s: State, t: State, p: Pid, c: Choice)
  {
    forall n: nat, u: State {:trigger Alone(cfg, t, p, c, n, u)} ::
      Alone(cfg, t, p, c, n, u) ==> Alone(cfg, s, p, c, n + 1, u)
  }

  lemma NextFollows(cfg: Config, s: State, p: Pid, c: Choice)
    requires Can(cfg, s, Go(p, c))
    ensures Precedes(cfg, s, Next(cfg, s, Go(p, c)), p, c)
  {
    var t := Next(cfg, s, Go(p, c));
    forall n: nat, u | Alone(cfg, t, p, c, n, u) ensures Alone(cfg, s, p, c, n + 1, u) {
      Before(cfg, s, p, c, n, u);
    }
  }

  /** A handler reads the row: there is nothing to ask for, or it will send. */
  lemma RowStep(cfg: Config, s: State, p: Pid, c: Choice, eid: nat, event: Event, k: nat, locked: bool)
    returns (t: State)
    requires p in s.procs && s.procs[p] == Work(EvRow(eid, event, k, locked))
    requires !IsRefused(s.db, event, locked)
    ensures p in t.procs && t.db == s.db && Published(t.log) == Published(s.log) && Precedes(cfg, s, t, p, c)
    ensures t.procs[p] ==
              if Controllers.Request(locked, event.kind, s.db.Find(event.sourceId), event.sourceId) == []
              then Handling(cfg, eid, event, k + 1, locked)
              else Work(EvSend(eid, event, k, s.db.rows[event.sourceId], |s.log|, locked))
  {
    var row := s.db.Find(event.sourceId);
    var next := if row.None? || (!event.kind.DeleteEvent? && !row.value.Live())
                then Handling(cfg, eid, event, k + 1, locked)
                else Work(EvSend(eid, event, k, row.value, |s.log|, locked));
    t := WorkStep(cfg, s, p, c, Nothing, next);
    NextFollows(cfg, s, p, c);
  }

  lemma SendStep(cfg: Config, s: State, p: Pid, c: Choice, k: Worker) returns (t: State)
    requires p in s.procs && s.procs[p] == Work(k) && k.EvSend? && c.ok
    ensures p in t.procs && t.db == s.db && Precedes(cfg, s, t, p, c)
    ensures t.procs[p] == Handling(cfg, k.eid, k.event, k.k + 1, k.locked)
    ensures Published(t.log) == Published(s.log) + [(k.event.kind, k.event.sourceId)]
  {
    t := WorkStep(cfg, s, p, c, Publish(k.event.kind, k.event.sourceId),
                  Handling(cfg, k.eid, k.event, k.k + 1, k.locked));
    NextFollows(cfg, s, p, c);
  }

  /** One whole handler. */
  lemma HandlerSteps(cfg: Config, s: State, p: Pid, c: Choice, eid: nat, event: Event, k: nat, locked: bool)
    returns (m: nat, t: State)
    requires p in s.procs && s.procs[p] == Work(EvRow(eid, event, k, locked)) && c.ok
    requires !IsRefused(s.db, event, locked)
    ensures p in t.procs && t.db == s.db && t.procs[p] == Handling(cfg, eid, event, k + 1, locked)
    ensures Published(t.log) == Published(s.log)
              + Controllers.Request(locked, event.kind, s.db.Find(event.sourceId), event.sourceId)
    ensures forall n: nat, u: State {:trigger Alone(cfg, t, p, c, n, u)} ::
              Alone(cfg, t, p, c, n, u) ==> Alone(cfg, s, p, c, n + m, u)
  {
    var s1 := RowStep(cfg, s, p, c, eid, event, k, locked);
    m, t := 1, s1;
    if Controllers.Request(locked, event.kind, s.db.Find(event.sourceId), event.sourceId) != [] {
      t := SendStep(cfg, s1, p, c, s1.procs[p].k);
      m := 2;
      forall n: nat, u: State | Alone(cfg, t, p, c, n, u) ensures Alone(cfg, s, p, c, n + 2, u) {
        assert Alone(cfg, s1, p, c, n + 1, u);
      }
    }
  }

  lemma MoreRequests(insists: bool, kind: Kind, row: Option<Row>, id: Id, n: nat)
    ensures Controllers.Request(insists, kind, row, id) + Controllers.Requests(insists, kind, row, id, n)
         == Controllers.Requests(insists, kind, row, id, n + 1)
  {
    Controllers.RequestsAre(insists, kind, row, id, n);
    Controllers.RequestsAre(insists, kind, row, id, n + 1);
  }

  /** The requests of the handlers from the given one on. */
  function Remaining(cfg: Config, db: Db, event: Event, k: nat, locked: bool): seq<(Kind, Id)>
    requires event.kind in cfg.handlers && k <= cfg.handlers[event.kind]
  {
    Controllers.Requests(locked, event.kind, db.Find(event.sourceId), event.sourceId, cfg.handlers[event.kind] - k)
  }

  lemma OneFewer(cfg: Config, db: Db, event: Event, k: nat, locked: bool)
    requires event.kind in cfg.handlers && k < cfg.handlers[event.kind]
    ensures Remaining(cfg, db, event, k, locked)
         == Controllers.Request(locked, event.kind, db.Find(event.sourceId), event.sourceId)
            + Remaining(cfg, db, event, k + 1, locked)
  {
    MoreRequests(locked, event.kind, db.Find(event.sourceId), event.sourceId, cfg.handlers[event.kind] - k - 1);
  }

  /** One handler's request and then those of the handlers after it. */
  lemma Joined(cfg: Config, db: Db, event: Event, k: nat, locked: bool,
               a: seq<(Kind, Id)>, b: seq<(Kind, Id)>, c: seq<(Kind, Id)>)
    requires event.kind in cfg.handlers && k < cfg.handlers[event.kind]
    requires b == a + Controllers.Request(locked, event.kind, db.Find(event.sourceId), event.sourceId)
    requires c == b + Remaining(cfg, db, event, k + 1, locked)
    ensures c == a + Remaining(cfg, db, event, k, locked)
  {
    OneFewer(cfg, db, event, k, locked);
  }

  /** All handlers from the given one on, and the final save. */
  lemma {:induction false} HandlersAlone(cfg: Config, s: State, p: Pid, c: Choice,
                                         eid: nat, event: Event, k: nat, locked: bool)
    returns (n: nat, t: State)
    requires p in s.procs && s.procs[p] == Handling(cfg, eid, event, k, locked) && c.ok
    requires event.kind in cfg.handlers && k <= cfg.handlers[event.kind]
    requires !IsRefused(s.db, event, locked)
    ensures Alone(cfg, s, p, c, n, t) && p in t.procs && t.procs[p] == Done(Completed)
    ensures t.db == SaveReconciled(s.db, eid, event)
    ensures Published(t.log) == Published(s.log) + Remaining(cfg, s.db, event, k, locked)
    decreases cfg.handlers[event.kind] - k, 1
  {
    if k < cfg.handlers[event.kind] {
      n, t := RowAlone(cfg, s, p, c, eid, event, k, locked);
    } else {
      t := WorkStep(cfg, s, p, c, Reconcile(eid, event), Done(Completed));
      n := 1;
      Before(cfg, s, p, c, 0, t);
    }
  }

  lemma {:induction false} RowAlone(cfg: Config, s: State, p: Pid, c: Choice,
                                    eid: nat, event: Event, k: nat, locked: bool)
    returns (n: nat, t: State)
    requires p in s.procs && s.procs[p] == Work(EvRow(eid, event, k, locked)) && c.ok
    requires event.kind in cfg.handlers && k < cfg.handlers[event.kind]
    requires !IsRefused(s.db, event, locked)
    ensures Alone(cfg, s, p, c, n, t) && p in t.procs && t.procs[p] == Done(Completed)
    ensures t.db == SaveReconciled(s.db, eid, event)
    ensures Published(t.log) == Published(s.log) + Remaining(cfg, s.db, event, k, locked)
    decreases cfg.handlers[event.kind] - k, 0
  {
    var m, s1 := HandlerSteps(cfg, s, p, c, eid, event, k, locked);
    n, t := HandlersAlone(cfg, s1, p, c, eid, event, k + 1, locked);
    n := n + m;
    Joined(cfg, s.db, event, k, locked, Published(s.log), Published(s1.log), Published(t.log));
  }

  /** The event is stored, unreconciled, and of a kind that is handled. */
  predicate IsPending(cfg: Config, db: Db, eid: nat)
  {
    eid in db.events && !db.events[eid].reconciled && db.events[eid].kind in cfg.handlers
  }

  lemma GotAlone(cfg: Config, s: State, p: Pid, c: Choice, eid: nat, locked: bool) returns (n: nat, t: State)
    requires p in s.procs && s.procs[p] == Work(EvGet(eid, locked)) && c.ok && IsPending(cfg, s.db, eid)
    requires !IsRefused(s.db, s.db.events[eid], locked)
    ensures Alone(cfg, s, p, c, n, t) && p in t.procs && t.procs[p] == Done(Completed)
    ensures var e := s.db.events[eid];
            && t.db == SaveReconciled(s.db, eid, e)
            && Published(t.log) == Published(s.log) + Remaining(cfg, s.db, e, 0, locked)
  {
    var event := s.db.events[eid];
    var s1 := WorkStep(cfg, s, p, c, Nothing, Handling(cfg, eid, event, 0, locked));
    n, t := HandlersAlone(cfg, s1, p, c, eid, event, 0, locked);
    Before(cfg, s, p, c, n, t);
    n := n + 1;
  }

  /** The message queue worker with a broker that answers: the tables and the requests of Process. */
  lemma EventAlone(cfg: Config, s: State, p: Pid, c: Choice, eid: nat) returns (n: nat, t: State)
    requires p in s.procs && s.procs[p] == Work(EvLock(eid)) && c.ok && IsPending(cfg, s.db, eid)
    requires cfg.hash(EventLock(eid)) !in s.locks && !IsRefused(s.db, s.db.events[eid], true)
    ensures Alone(cfg, s, p, c, n, t) && p in t.procs && t.procs[p] == Done(Completed)
    ensures var e := s.db.events[eid];
            && t.db == SaveReconciled(s.db, eid, e)
            && Published(t.log) == Published(s.log)
                 + Controllers.Requests(true, e.kind, s.db.Find(e.sourceId), e.sourceId, cfg.handlers[e.kind])
  {
    var s1 := WorkStep(cfg, s, p, c, Take(cfg.hash(EventLock(eid))), Work(EvGet(eid, true)));
    n, t := GotAlone(cfg, s1, p, c, eid, true);
    Before(cfg, s, p, c, n, t);
    n := n + 1;
  }

  lemma AbsentAlone(cfg: Config, s: State, p: Pid, c: Choice, eid: nat, event: Event) returns (t: State)
    requires p in s.procs && s.procs[p] == Work(PreRow(eid, event)) && event.sourceId !in s.db.rows
    ensures Alone(cfg, s, p, c, 2, t) && p in t.procs && t.procs[p] == Done(Skipped)
    ensures t.db == SaveReconciled(s.db, eid, event) && Published(t.log) == Published(s.log)
  {
    var s1 := WorkStep(cfg, s, p, c, Nothing, Work(PreSave(eid, event)));
    t := WorkStep(cfg, s1, p, c, Reconcile(eid, event), Done(Skipped));
    Before(cfg, s1, p, c, 0, t);
    Before(cfg, s, p, c, 1, t);
  }

  lemma PresentAlone(cfg: Config, s: State, p: Pid, c: Choice, eid: nat) returns (n: nat, t: State)
    requires p in s.procs && c.ok && IsPending(cfg, s.db, eid)
    requires s.procs[p] == Work(PreRow(eid, s.db.events[eid])) && s.db.events[eid].sourceId in s.db.rows
    ensures Alone(cfg, s, p, c, n, t) && p in t.procs && t.procs[p] == Done(Completed)
    ensures var e := s.db.events[eid];
            && t.db == SaveReconciled(s.db, eid, e)
            && Published(t.log) == Published(s.log) + Remaining(cfg, s.db, e, 0, false)
  {
    var s1 := WorkStep(cfg, s, p, c, Nothing, Work(EvGet(eid, false)));
    var m;
    m, t := GotAlone(cfg, s1, p, c, eid, false);
    n := m + 1;
    Before(cfg, s, p, c, m, t);
  }

  /** The gRPC broker: an event without a row is done with at once, any other goes to the handlers when
      the replica has a subscriber for it. */
  lemma BrokerAlone(cfg: Config, s: State, p: Pid, c: Choice, eid: nat) returns (n: nat, t: State)
    requires p in s.procs && s.procs[p] == Work(PreGet(eid)) && c.ok && IsPending(cfg, s.db, eid)
    ensures Alone(cfg, s, p, c, n, t) && p in t.procs
    ensures var e := s.db.events[eid];
            && t.db == SaveReconciled(s.db, eid, e)
            && t.procs[p] == Done(if e.sourceId in s.db.rows then Completed else Skipped)
            && Published(t.log) == Published(s.log)
                 + if e.sourceId in s.db.rows then Remaining(cfg, s.db, e, 0, false) else []
  {
    var event := s.db.events[eid];
    var s1 := WorkStep(cfg, s, p, c, Nothing, Work(PreRow(eid, event)));
    var m := 2;
    if event.sourceId in s.db.rows {
      m, t := PresentAlone(cfg, s1, p, c, eid);
    } else {
      t := AbsentAlone(cfg, s1, p, c, eid, event);
    }
    n := m + 1;
    Before(cfg, s, p, c, m, t);
  }

  /** A stale delete pass: the selection and the retirement of StaleDeleteDetector.Run. */
  lemma StalePassAlone(cfg: Config, s: State, p: Pid, c: Choice) returns (t: State)
    requires p in s.procs && s.procs[p] == Check(OldLock) && cfg.hash(StaleCheckLock) !in s.locks
    requires IsBatch(s.db, s.db.clock - cfg.threshold, c.picked)
    ensures Alone(cfg, s, p, c, 3, t) && p in t.procs && t.procs[p] == Done(Retired(|c.picked|))
    ensures t.db == Store.Retire(s.db, c.picked)
  {
    var s1 := Step(cfg, s, p, c, Take(cfg.hash(StaleCheckLock)), Check(OldNow));
    var s2 := Step(cfg, s1, p, c, Nothing, Check(OldRun(s.db.clock)));
    t := Step(cfg, s2, p, c, RetireAll(c.picked), Done(Retired(|c.picked|)));
    Before(cfg, s2, p, c, 0, t);
    Before(cfg, s1, p, c, 1, t);
    Before(cfg, s, p, c, 2, t);
  }

  /** So many rounds of an undelivered pass, one for each of the given events, lead to the given tables. */
  ghost predicate Adds(cfg: Config, s: State, p: Pid, events: seq<(Id, Kind)>, db: Db)
    decreases events
  {
    if events == [] then s.db == db
    else
      var a := Go(p, Choice(true, {}, None, events[0].0, events[0].1));
      Can(cfg, s, a) && Adds(cfg, Next(cfg, s, a), p, events[1..], db)
  }

  function AddAll(db: Db, events: seq<(Id, Kind)>): Db
    decreases events
  {
    if events == [] then db else AddAll(AddEvent(db, events[0].0, events[0].1, None), events[1..])
  }

  /** An undelivered pass can add whatever create and update events its loop comes to. */
  lemma {:induction false} PassAlone(cfg: Config, s: State, p: Pid, events: seq<(Id, Kind)>)
    requires p in s.procs && s.procs[p] == Check(NewLoop)
    requires forall i :: 0 <= i < |events| ==> !events[i].1.DeleteEvent?
    ensures Adds(cfg, s, p, events, AddAll(s.db, events))
    decreases events
  {
    if events != [] {
      var c := Choice(true, {}, None, events[0].0, events[0].1);
      var t := Step(cfg, s, p, c, Enqueue(c.id, c.kind, None), Check(NewLoop));
      PassAlone(cfg, t, p, events[1..]);
    }
  }
}
