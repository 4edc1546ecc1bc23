/** Event delivery over whole runs: who may be inside the handlers, when an event may be marked
    reconciled, and what the handlers may publish. */
module Delivery {
  import opened Wrappers
  import opened Store
  import opened System
  import opened Discipline

  // Exclusive handling

  /** The process is between reading the event and marking it, under the event's lock. */
  predicate Handles(q: Proc, eid: nat)
  {
    && q.Work? && (q.k.EvRow? || q.k.EvSend? || q.k.EvSave?) && q.k.eid == eid && q.k.locked
  }

  /** Whatever the lock hash, no two workers are inside the handlers of one event. */
  lemma OneHandlerPerEvent(cfg: Config, s: State, p: Pid, q: Pid, eid: nat)
    requires Reachable(cfg, s) && p in s.procs && q in s.procs
    requires Handles(s.procs[p], eid) && Handles(s.procs[q], eid)
    ensures p == q
  {
    ReachableIsGood(cfg, s);
    Exclusive(cfg, s, p, q);
  }

  /** The event was inserted and is not waiting any more. */
  predicate Settled(db: Db, eid: nat)
  {
    eid in db.issued && (eid in db.events ==> db.events[eid].reconciled)
  }

  lemma ActKeepsSettled(db: Db, e: Effect, eid: nat)
    requires EventsOk(db)
    ensures Settled(db, eid) ==> Settled(Act(db, e), eid)
    ensures eid in db.events && !db.events[eid].reconciled ==> eid in Act(db, e).events
  {
  }

  /** Reconciliation is permanent, and an unreconciled event stays stored. */
  lemma StepKeepsSettled(cfg: Config, s: State, a: Action, eid: nat)
    requires EventsOk(s.db) && Can(cfg, s, a)
    ensures Settled(s.db, eid) ==> Settled(Next(cfg, s, a).db, eid)
    ensures eid in s.db.events && !s.db.events[eid].reconciled ==> eid in Next(cfg, s, a).db.events
  {
    match a
    case Go(p, c) => ActKeepsSettled(s.db, Plan(cfg, s, s.procs[p], c).0, eid);
    case _ =>
  }

  lemma {:induction false} ReconciledForever(cfg: Config, s: State, run: seq<Action>, eid: nat)
    requires Good(cfg, s) && IsRun(cfg, s, run) && Settled(s.db, eid)
    ensures Settled(Exec(cfg, s, run).db, eid)
    decreases run
  {
    if run != [] {
      StepKeepsGood(cfg, s, run[0]);
      StepKeepsSettled(cfg, s, run[0], eid);
      ReconciledForever(cfg, Next(cfg, s, run[0]), run[1..], eid);
    }
  }

  predicate Completes(entry: Entry, eid: nat) { Handles(entry.at, eid) && entry.effect.Reconcile? }

  /** How often handleEvent recorded the event as done. */
  function Completions(log: seq<Entry>, eid: nat): nat
  {
    if log == [] then 0
    else Completions(log[..|log| - 1], eid) + if Completes(log[|log| - 1], eid) then 1 else 0
  }

  ghost predicate DoneOnce(s: State, eid: nat)
  {
    var n := Completions(s.log, eid);
    && n <= 1
    && (n > 0 ==> Settled(s.db, eid) && forall p :: p in s.procs ==> !Handles(s.procs[p], eid))
  }

  /** Entering the handlers takes an event that is not settled. */
  lemma EntersUnsettled(cfg: Config, s: State, q: Proc, c: Choice, eid: nat)
    requires Handles(Plan(cfg, s, q, c).1, eid) && !Handles(q, eid)
    ensures !Settled(s.db, eid)
  {
  }

  lemma CompletionSettles(cfg: Config, s: State, q: Proc, c: Choice, eid: nat)
    requires Handles(q, eid) && Plan(cfg, s, q, c).0.Reconcile? && Local(cfg, s.db, q)
    ensures var (e, next) := Plan(cfg, s, q, c);
            !Handles(next, eid) && Settled(Act(s.db, e), eid)
  {
  }

  lemma GoKeepsDoneOnce(cfg: Config, s: State, p: Pid, c: Choice, eid: nat)
    requires Good(cfg, s) && Can(cfg, s, Go(p, c)) && DoneOnce(s, eid)
    ensures DoneOnce(Next(cfg, s, Go(p, c)), eid)
  {
    var s' := Next(cfg, s, Go(p, c));
    var entry := s'.log[|s.log|];
    assert s'.log[..|s'.log| - 1] == s.log;
    StepKeepsSettled(cfg, s, Go(p, c), eid);
    if Completes(entry, eid) {
      CompletionSettles(cfg, s, s.procs[p], c, eid);
      forall q | q in s.procs && Handles(s.procs[q], eid) ensures q == p {
        Exclusive(cfg, s, p, q);
      }
    } else if Handles(s'.procs[p], eid) && !Handles(s.procs[p], eid) {
      EntersUnsettled(cfg, s, s.procs[p], c, eid);
    }
  }

  /** Over every run each event is recorded as done at most once by the workers of all replicas. */
  lemma {:induction false} HandledAtMostOnce(cfg: Config, s: State, run: seq<Action>, eid: nat)
    requires Good(cfg, s) && IsRun(cfg, s, run) && DoneOnce(s, eid)
    ensures DoneOnce(Exec(cfg, s, run), eid)
    decreases run
  {
    if run != [] {
      StepKeepsGood(cfg, s, run[0]);
      match run[0] {
        case Go(p, c) => GoKeepsDoneOnce(cfg, s, p, c, eid);
        case a => StepKeepsSettled(cfg, s, a, eid);
      }
      HandledAtMostOnce(cfg, Next(cfg, s, run[0]), run[1..], eid);
    }
  }

  // Justified reconciliation

  predicate SoftDeletes(entry: Entry, id: Id, inc: nat)
  {
    entry.effect == MarkDeleted(id) && entry.hit == Some(inc)
  }

  ghost predicate LiveUntil(log: seq<Entry>, n: nat, id: Id, inc: nat)
  {
    forall i :: 0 <= i < n && i < |log| ==> !SoftDeletes(log[i], id, inc)
  }

  lemma LongerLog(log: seq<Entry>, entry: Entry, n: nat, id: Id, inc: nat)
    ensures n <= |log| ==> (LiveUntil(log + [entry], n, id, inc) <==> LiveUntil(log, n, id, inc))
    ensures n > |log| ==>
              (LiveUntil(log + [entry], n, id, inc) <==>
               LiveUntil(log, |log|, id, inc) && !SoftDeletes(entry, id, inc))
  {
    var more := log + [entry];
    assert more[|log|] == entry && forall i :: 0 <= i < |log| ==> more[i] == log[i];
  }

  /** Handler `j` of the event returned success to this process. */
  ghost predicate HandledBy(log: seq<Entry>, p: Pid, eid: nat, event: Event, j: nat)
  {
    exists i :: 0 <= i < |log| && log[i].p == p && IsHandler(log, i, eid, event, j)
  }

  ghost predicate AllHandled(log: seq<Entry>, p: Pid, eid: nat, event: Event, n: nat)
  {
    forall j :: 0 <= j < n ==> HandledBy(log, p, eid, event, j)
  }

  /** The handler published the request of the event, or found no row, or, for a create or update event,
      found an incarnation that had been soft deleted before. */
  ghost predicate IsHandler(log: seq<Entry>, i: nat, eid: nat, event: Event, j: nat)
    requires i < |log|
  {
    && log[i].at.Work? && (log[i].at.k.EvRow? || log[i].at.k.EvSend?)
    && log[i].at.k.eid == eid && log[i].at.k.event == event && log[i].at.k.k == j
    && (if log[i].at.k.EvSend? then log[i].effect == Publish(event.kind, event.sourceId)
        else log[i].hit.None?
             || (!event.kind.DeleteEvent? && !LiveUntil(log, i, event.sourceId, log[i].hit.value)))
  }

  /** The process looked up the resource of the event and found no row. */
  ghost predicate SawAbsent(log: seq<Entry>, p: Pid, eid: nat, id: Id)
  {
    exists i :: 0 <= i < |log| && log[i].p == p && IsAbsentRead(log[i], eid, id)
  }

  predicate IsAbsentRead(entry: Entry, eid: nat, id: Id)
  {
    && entry.at.Work? && entry.at.k.PreRow? && entry.at.k.eid == eid
    && entry.at.k.event.sourceId == id && entry.hit.None?
  }

  /** What a worker has behind it. */
  ghost predicate Earned(cfg: Config, log: seq<Entry>, p: Pid, k: Worker)
  {
    match k
    case PreSave(eid, event) => SawAbsent(log, p, eid, event.sourceId)
    case EvRow(eid, event, k, _) =>
      event.kind in cfg.handlers && k < cfg.handlers[event.kind] && AllHandled(log, p, eid, event, k)
    case EvSend(eid, event, k, _, _, _) =>
      event.kind in cfg.handlers && k < cfg.handlers[event.kind] && AllHandled(log, p, eid, event, k)
    case EvSave(eid, event, _) =>
      event.kind in cfg.handlers && AllHandled(log, p, eid, event, cfg.handlers[event.kind])
    case _ => true
  }

  // Publishing

  /** The read behind a request: this process read the row. For a create or update request it was
      live, and no soft delete of that incarnation came before the read. For a delete request it was
      marked, except that the gRPC broker takes an event that announces another incarnation too. */
  ghost predicate ReadBehind(log: seq<Entry>, p: Pid, k: Worker)
  {
    k.EvSend? ==>
      && k.readAt < |log| && log[k.readAt].p == p && log[k.readAt].at.Work?
      && log[k.readAt].at.k == EvRow(k.eid, k.event, k.k, k.locked)
      && log[k.readAt].hit == Some(k.row.inc)
      && (if k.event.kind.DeleteEvent? then k.row.Live() ==> !k.locked && k.event.cause != Some(k.row.inc)
          else k.row.Live() && LiveUntil(log, k.readAt, k.event.sourceId, k.row.inc))
  }

  predicate IsRequest(entry: Entry) { entry.effect.Publish? }

  ghost predicate RequestOk(log: seq<Entry>, i: nat)
    requires i < |log|
  {
    && log[i].at.Work? && log[i].at.k.EvSend?
    && log[i].effect == Publish(log[i].at.k.event.kind, log[i].at.k.event.sourceId)
    && log[i].at.k.readAt < i
    && ReadBehind(log, log[i].p, log[i].at.k)
  }

  ghost predicate Behind(cfg: Config, s: State)
  {
    && (forall p :: p in s.procs && s.procs[p].Work? ==>
          Earned(cfg, s.log, p, s.procs[p].k) && ReadBehind(s.log, p, s.procs[p].k))
    && RowsBehind(s.db, s.log) && RequestsBehind(s.log)
  }

  ghost predicate RowsBehind(db: Db, log: seq<Entry>)
  {
    && (forall id :: id in db.rows ==>
          (db.rows[id].Live() <==> LiveUntil(log, |log|, id, db.rows[id].inc)))
    && (forall i :: 0 <= i < |log| ==> log[i].hit.Some? ==> log[i].hit.value < db.nextInc)
  }

  ghost predicate RequestsBehind(log: seq<Entry>)
  {
    forall i :: 0 <= i < |log| && IsRequest(log[i]) ==> RequestOk(log, i)
  }

  lemma MoreLog(cfg: Config, log: seq<Entry>, entry: Entry, p: Pid, k: Worker)
    requires Earned(cfg, log, p, k) && ReadBehind(log, p, k)
    ensures Earned(cfg, log + [entry], p, k) && ReadBehind(log + [entry], p, k)
  {
    forall eid, event, j | HandledBy(log, p, eid, event, j)
      ensures HandledBy(log + [entry], p, eid, event, j)
    {
      var i :| 0 <= i < |log| && log[i].p == p && IsHandler(log, i, eid, event, j);
      if log[i].hit.Some? { LongerLog(log, entry, i, event.sourceId, log[i].hit.value); }
      assert (log + [entry])[i] == log[i] && IsHandler(log + [entry], i, eid, event, j);
    }
    forall eid, id | SawAbsent(log, p, eid, id) ensures SawAbsent(log + [entry], p, eid, id) {
      var i :| 0 <= i < |log| && log[i].p == p && IsAbsentRead(log[i], eid, id);
      assert (log + [entry])[i] == log[i];
    }
  }

  /** A handler returned success in this step. */
  predicate HandlerReturned(q: Proc, next: Proc)
  {
    && q.Work? && (q.k.EvRow? || q.k.EvSend?) && next.Work? && !next.k.EvSend?
  }

  /** A handler that returns success has published or has an excuse. */
  lemma HandlerEarns(cfg: Config, s: State, p: Pid, c: Choice)
    requires p in s.procs && s.procs[p].Work? && RowsBehind(s.db, s.log)
    requires HandlerReturned(s.procs[p], Plan(cfg, s, s.procs[p], c).1)
    ensures var (e, next) := Plan(cfg, s, s.procs[p], c);
            var k := s.procs[p].k;
            IsHandler(s.log + [Record(s.db, p, s.procs[p], e)], |s.log|, k.eid, k.event, k.k)
  {
    var (e, next) := Plan(cfg, s, s.procs[p], c);
    var k := s.procs[p].k;
    var log := s.log + [Record(s.db, p, s.procs[p], e)];
    assert log[|s.log|] == Record(s.db, p, s.procs[p], e);
    if k.EvRow? && k.event.sourceId in s.db.rows {
      LongerLog(s.log, log[|s.log|], |s.log|, k.event.sourceId, s.db.rows[k.event.sourceId].inc);
    }
  }

  lemma WorkerEarns(cfg: Config, s: State, p: Pid, c: Choice)
    requires p in s.procs && s.procs[p].Work? && Behind(cfg, s)
    requires DeletedFirst(s.db) && Local(cfg, s.db, s.procs[p])
    ensures var (e, next) := Plan(cfg, s, s.procs[p], c);
            var log := s.log + [Record(s.db, p, s.procs[p], e)];
            next.Work? ==> Earned(cfg, log, p, next.k) && ReadBehind(log, p, next.k)
  {
    var k := s.procs[p].k;
    var (e, next) := Plan(cfg, s, s.procs[p], c);
    var entry := Record(s.db, p, s.procs[p], e);
    MoreLog(cfg, s.log, entry, p, k);
    assert (s.log + [entry])[|s.log|] == entry;
    if HandlerReturned(s.procs[p], next) {
      HandlerEarns(cfg, s, p, c);
      assert HandledBy(s.log + [entry], p, k.eid, k.event, k.k);
    } else if k.PreRow? && next.Work? && next.k.PreSave? {
      assert IsAbsentRead(entry, k.eid, k.event.sourceId);
    }
  }

  lemma MarksKnowTheirRow(cfg: Config, s: State, q: Proc, c: Choice)
    ensures var e := Plan(cfg, s, q, c).0; e.MarkDeleted? ==> Subject(q) == Some(e.id)
    ensures var e := Plan(cfg, s, q, c).0;
            e.Publish? ==> q.Work? && q.k.EvSend?
                           && e == Publish(q.k.event.kind, q.k.event.sourceId)
  {
  }

  lemma ActKeepsRows(db: Db, e: Effect, log: seq<Entry>, entry: Entry)
    requires RowsOk(db) && RowsBehind(db, log) && entry.effect == e
    requires entry.hit.Some? ==> entry.hit.value < db.nextInc
    requires e.MarkDeleted? ==> entry.hit == Hit(db, Some(e.id))
    ensures RowsBehind(Act(db, e), log + [entry])
  {
    forall id | id in Act(db, e).rows
      ensures Act(db, e).rows[id].Live() <==>
              LiveUntil(log + [entry], |log| + 1, id, Act(db, e).rows[id].inc)
    {
      LongerLog(log, entry, |log| + 1, id, Act(db, e).rows[id].inc);
    }
  }

  lemma AppendKeepsRequests(log: seq<Entry>, entry: Entry)
    requires RequestsBehind(log)
    requires IsRequest(entry) ==>
               && entry.at.Work? && entry.at.k.EvSend? && ReadBehind(log, entry.p, entry.at.k)
               && entry.effect == Publish(entry.at.k.event.kind, entry.at.k.event.sourceId)
    ensures RequestsBehind(log + [entry])
  {
    forall i | 0 <= i < |log| + 1 && IsRequest((log + [entry])[i])
      ensures RequestOk(log + [entry], i)
    {
      if i < |log| { assert RequestOk(log, i); }
    }
  }

  lemma GoKeepsBehind(cfg: Config, s: State, p: Pid, c: Choice)
    requires DbOk(s.db) && Can(cfg, s, Go(p, c)) && Local(cfg, s.db, s.procs[p]) && Behind(cfg, s)
    ensures Behind(cfg, Next(cfg, s, Go(p, c)))
  {
    var (e, next) := Plan(cfg, s, s.procs[p], c);
    var entry := Record(s.db, p, s.procs[p], e);
    var s' := Move(s, p, e, next, entry);
    MarksKnowTheirRow(cfg, s, s.procs[p], c);
    ActKeepsRows(s.db, e, s.log, entry);
    AppendKeepsRequests(s.log, entry);
    if s.procs[p].Work? { WorkerEarns(cfg, s, p, c); }
    forall q | q in s.procs && q != p && s.procs[q].Work?
      ensures Earned(cfg, s'.log, q, s.procs[q].k) && ReadBehind(s'.log, q, s.procs[q].k)
    {
      MoreLog(cfg, s.log, entry, q, s.procs[q].k);
    }
  }

  lemma {:induction false} RunKeepsBehind(cfg: Config, s: State, run: seq<Action>)
    requires Good(cfg, s) && Behind(cfg, s) && IsRun(cfg, s, run)
    ensures Behind(cfg, Exec(cfg, s, run))
    decreases run
  {
    if run != [] {
      StepKeepsGood(cfg, s, run[0]);
      match run[0] {
        case Go(p, c) => GoKeepsBehind(cfg, s, p, c);
        case _ =>
      }
      RunKeepsBehind(cfg, Next(cfg, s, run[0]), run[1..]);
    }
  }

  /** The process at `q` may mark the event. */
  ghost predicate MayReconcile(cfg: Config, s: State, p: Pid, q: Proc, eid: nat, event: Event)
  {
    match q
    case Work(k) =>
      && k.eid == eid && (k.PreSave? || k.EvSave?)
      && (k.PreSave? ==> SawAbsent(s.log, p, eid, event.sourceId))
      && (k.EvSave? ==> event.kind in cfg.handlers
                        && AllHandled(s.log, p, eid, event, cfg.handlers[event.kind]))
    case Check(k) =>
      && k.OldRun? && k.now <= s.db.clock && event.kind == DeleteEvent
      && event.createdAt < k.now - cfg.threshold && event.sourceId in s.db.rows
      && s.db.rows[event.sourceId].deletedAt.Some?
      && s.db.rows[event.sourceId].deletedAt.value < k.now - cfg.threshold
    case _ => false
  }

  lemma JustifiedStep(cfg: Config, s: State, a: Action, eid: nat)
    requires EventsOk(s.db) && Can(cfg, s, a) && Behind(cfg, s)
    requires a.Go? ==> Local(cfg, s.db, s.procs[a.p])
    requires eid in s.db.events && !s.db.events[eid].reconciled
    requires eid in Next(cfg, s, a).db.events && Next(cfg, s, a).db.events[eid].reconciled
    ensures a.Go? && a.p in s.procs
    ensures MayReconcile(cfg, s, a.p, s.procs[a.p], eid, s.db.events[eid])
  {
    OnlyTheseReconcile(cfg, s, a, eid);
  }

  /** Whenever an event becomes reconciled, every handler registered for it has returned success to the
      process that marks it, by publishing its request or because there was nothing to ask for; or that
      process found the resource row absent; or it is a stale delete pass that read the clock, and this
      is a delete event older than its cutoff of a resource soft deleted before the cutoff. */
  lemma ReconciliationJustified(cfg: Config, run: seq<Action>, a: Action, eid: nat)
    requires IsRun(cfg, Init, run)
    requires var s := Exec(cfg, Init, run);
             && Can(cfg, s, a) && eid in s.db.events && !s.db.events[eid].reconciled
             && eid in Next(cfg, s, a).db.events && Next(cfg, s, a).db.events[eid].reconciled
    ensures var s := Exec(cfg, Init, run);
            && a.Go? && a.p in s.procs
            && MayReconcile(cfg, s, a.p, s.procs[a.p], eid, s.db.events[eid])
  {
    RunKeepsGood(cfg, Init, run);
    RunKeepsBehind(cfg, Init, run);
    JustifiedStep(cfg, Exec(cfg, Init, run), a, eid);
  }

  /** A stale delete pass that retires fewer events than a batch leaves none that is old enough. */
  lemma StalePassIsComplete(cfg: Config, s: State, p: Pid, c: Choice, eid: nat, at: nat)
    requires Can(cfg, s, Go(p, c)) && s.procs[p].Check? && s.procs[p].c.OldRun?
    requires eid in s.db.events && s.db.events[eid].kind == DeleteEvent
    requires s.db.events[eid].sourceId in s.db.rows
    requires s.db.rows[s.db.events[eid].sourceId].deletedAt == Some(at)
    requires var cutoff := s.procs[p].c.now - cfg.threshold;
             s.db.events[eid].createdAt < cutoff && at < cutoff
    ensures var t := Next(cfg, s, Go(p, c));
            && t.procs[p].Done? && t.procs[p].outcome.Retired? && t.procs[p].outcome.count <= 10000
            && eid in t.db.events
            && (t.procs[p].outcome.count < 10000 ==> t.db.events[eid].reconciled)
  {}

  lemma OnlyTheseReconcile(cfg: Config, s: State, a: Action, eid: nat)
    requires EventsOk(s.db) && Can(cfg, s, a) && eid in s.db.events && !s.db.events[eid].reconciled
    requires eid in Next(cfg, s, a).db.events && Next(cfg, s, a).db.events[eid].reconciled
    ensures a.Go? && a.p in s.procs
    ensures var e := Plan(cfg, s, s.procs[a.p], a.choice).0;
            (e.Reconcile? && e.eid == eid) || (e.RetireAll? && eid in e.picked)
  {
  }

  /** In every run a published create or update request comes from a read that saw the row live,
      and that read was not preceded by a soft delete of the same incarnation. */
  lemma NoResurrection(cfg: Config, run: seq<Action>, i: nat)
    requires IsRun(cfg, Init, run)
    requires var log := Exec(cfg, Init, run).log;
             i < |log| && IsRequest(log[i]) && !log[i].effect.kind.DeleteEvent?
    ensures Exec(cfg, Init, run).log[i].at.Work? && Exec(cfg, Init, run).log[i].at.k.EvSend?
    ensures var log := Exec(cfg, Init, run).log;
            var k := log[i].at.k;
            && k.readAt < i && log[k.readAt].p == log[i].p
            && log[k.readAt].at == Work(EvRow(k.eid, k.event, k.k, k.locked))
            && log[k.readAt].hit == Some(k.row.inc) && k.row.Live()
            && log[i].effect.id == k.event.sourceId
            && forall j :: 0 <= j < k.readAt ==> !SoftDeletes(log[j], k.event.sourceId, k.row.inc)
  {
    RunKeepsBehind(cfg, Init, run);
    assert RequestOk(Exec(cfg, Init, run).log, i);
  }

  /** In every run a published delete request comes from a read that saw the row marked, or it is one
      of the gRPC broker and its event announces another incarnation than the live one it read. */
  lemma DeleteRequestsJustified(cfg: Config, run: seq<Action>, i: nat)
    requires IsRun(cfg, Init, run)
    requires var log := Exec(cfg, Init, run).log;
             i < |log| && IsRequest(log[i]) && log[i].effect.kind.DeleteEvent?
    ensures Exec(cfg, Init, run).log[i].at.Work? && Exec(cfg, Init, run).log[i].at.k.EvSend?
    ensures var log := Exec(cfg, Init, run).log;
            var k := log[i].at.k;
            && k.readAt < i && log[k.readAt].p == log[i].p
            && log[k.readAt].at == Work(EvRow(k.eid, k.event, k.k, k.locked))
            && log[k.readAt].hit == Some(k.row.inc) && log[i].effect.id == k.event.sourceId
            && (k.row.Live() ==> !k.locked && k.event.cause != Some(k.row.inc))
  {
    RunKeepsBehind(cfg, Init, run);
    assert RequestOk(Exec(cfg, Init, run).log, i);
  }

  /** A worker that reads a row for a delete event goes on to publish the deletion of a live row if and
      only if it is one of the gRPC broker and the row is live, which then is another incarnation than
      the event announces. */
  lemma DeletesLiveRowIff(cfg: Config, s: State, p: Pid, c: Choice)
    requires Reachable(cfg, s) && p in s.procs && s.procs[p].Work? && s.procs[p].k.EvRow?
    requires s.procs[p].k.event.kind.DeleteEvent?
    ensures var k, next := s.procs[p].k, Plan(cfg, s, s.procs[p], c).1;
            && (next.Work? && next.k.EvSend? && next.k.row.Live() <==>
                !k.locked && k.event.sourceId in s.db.rows && s.db.rows[k.event.sourceId].Live())
            && (next.Work? && next.k.EvSend? && next.k.row.Live() ==>
                  k.event.cause != Some(s.db.rows[k.event.sourceId].inc))
  {
    ReachableIsGood(cfg, s);
    assert Local(cfg, s.db, s.procs[p]);
  }
}
