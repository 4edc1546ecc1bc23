/** The resource service as its code runs, one call at a time (pkg/services/resource.go,
    HandleStatusUpdate in cmd/maestro/server/event_server.go). Every data access call may fail
    unless the database is said to be reliable. Within one call the clock stands still; the step system lets it run. */
module Service {
  import opened Wrappers
  import opened Store
  import opened Locks
  import SequenceIds

  /** The shared tables and the statements on them. */
  class Database {
    const reliable: bool  // no call fails
    var clock: nat
    var rows: map<Id, Row>
    var events: map<nat, Event>
    var nextInc: nat
    var nextEvent: nat
    ghost var issued: map<nat, Event>
    var statusEvents: seq<(Id, bool)>  // the resource, and whether it was deleted

    ghost function View(): Db
      reads this
    {
      Db(clock, rows, events, nextInc, nextEvent, issued)
    }

    constructor (reliable: bool)
      ensures View() == Empty && statusEvents == [] && this.reliable == reliable
    {
      this.reliable := reliable;
      clock, rows, events, nextInc, nextEvent, issued := 0, map[], map[], 0, 0, map[];
      statusEvents := [];
    }

    method Attempt() returns (ok: bool)
      ensures reliable ==> ok
    {
      if reliable { ok := true; } else { ok := *; }
    }

    method Get(id: Id) returns (ok: bool, found: Option<Row>)
      ensures reliable ==> ok
      ensures ok ==> found == View().Find(id)
    {
      ok := Attempt();
      found := if id in rows then Some(rows[id]) else None;
    }

    /** An identifier that is taken is refused. */
    method AddRow(id: Id, consumer: string, version: int, payload: string) returns (ok: bool, taken: bool)
      modifies this`rows, this`nextInc
      ensures reliable ==> ok != taken
      ensures taken ==> !ok && id in old(rows)
      ensures ok ==> id !in old(rows)
      ensures View() == if ok then Store.AddRow(old(View()), id, consumer, version, payload) else old(View())
    {
      taken := id in rows;
      if taken { return false, true; }
      ok := Attempt();
      if ok {
        rows := rows[id := NewRow(nextInc, consumer, version, payload, clock)];
        nextInc := nextInc + 1;
      }
    }

    method SetSpec(id: Id, version: int, payload: string) returns (ok: bool)
      modifies this`rows
      ensures reliable ==> ok
      ensures View() == if ok then Store.SetSpec(old(View()), id, version, payload) else old(View())
    {
      ok := Attempt();
      if ok && id in rows {
        rows := rows[id := rows[id].(version := version, payload := payload)];
      }
    }

    method SetStatus(id: Id, status: Status) returns (ok: bool)
      modifies this`rows
      ensures reliable ==> ok
      ensures View() == if ok then Store.SetStatus(old(View()), id, status) else old(View())
    {
      ok := Attempt();
      if ok && id in rows { rows := rows[id := rows[id].(status := Some(status))]; }
    }

    method SoftDelete(id: Id) returns (ok: bool)
      modifies this`rows
      ensures reliable ==> ok
      ensures View() == if ok then Store.SoftDelete(old(View()), id) else old(View())
    {
      ok := Attempt();
      if ok && id in rows && rows[id].Live() {
        rows := rows[id := rows[id].(deletedAt := Some(clock))];
      }
    }

    method HardDelete(id: Id) returns (ok: bool)
      modifies this`rows
      ensures reliable ==> ok
      ensures View() == if ok then Store.HardDelete(old(View()), id) else old(View())
    {
      ok := Attempt();
      if ok { rows := rows - {id}; }
    }

    method AddEvent(id: Id, kind: Kind, cause: Option<nat>) returns (ok: bool)
      modifies this`events, this`nextEvent, this`issued
      ensures reliable ==> ok
      ensures View() == if ok then Store.AddEvent(old(View()), id, kind, cause) else old(View())
    {
      ok := Attempt();
      if ok {
        var event := Event(id, kind, clock, false, cause, false);
        events := events[nextEvent := event];
        issued := issued[nextEvent := event];
        nextEvent := nextEvent + 1;
      }
    }

    method GetEvent(eid: nat) returns (ok: bool, found: Option<Event>)
      ensures reliable ==> ok
      ensures ok ==> found == if eid in events then Some(events[eid]) else None
    {
      ok := Attempt();
      found := if eid in events then Some(events[eid]) else None;
    }

    /** Replace, called with the reconciled date set. */
    method SaveReconciled(eid: nat, event: Event) returns (ok: bool)
      modifies this`events
      ensures reliable ==> ok
      ensures View() == if ok then Store.SaveReconciled(old(View()), eid, event) else old(View())
    {
      ok := Attempt();
      if ok {
        var revived := event.revived || eid !in events || events[eid].revived;
        events := events[eid := event.(reconciled := true, revived := revived)];
      }
    }

    method PurgeReconciled() returns (ok: bool)
      modifies this`events
      ensures reliable ==> ok
      ensures View() == if ok then Store.PurgeReconciled(old(View())) else old(View())
    {
      ok := Attempt();
      if ok { events := map eid | eid in events && !events[eid].reconciled :: events[eid]; }
    }

    /** An unreconciled delete event, created before the cutoff, of a resource that is still stored and
        was soft deleted before the cutoff. */
    ghost predicate IsOld(eid: nat, cutoff: int)
      reads this
    {
      && eid in events && events[eid].kind == DeleteEvent && events[eid].reconciled == false
      && events[eid].createdAt < cutoff
      && exists at: nat :: at < cutoff && events[eid].sourceId in rows
                           && rows[events[eid].sourceId].deletedAt == Some(at)
    }

    /** Old events only, at most a batch of them, and all when they are fewer. */
    method SelectStale(cutoff: int) returns (chosen: set<nat>)
      ensures IsBatch(View(), cutoff, chosen)
      ensures |chosen| <= 10000 && forall eid :: eid in chosen ==> IsOld(eid, cutoff)
      ensures |chosen| < 10000 ==> forall eid :: IsOld(eid, cutoff) ==> eid in chosen
    {
      chosen := {};
      var todo := events.Keys;
      while todo != {} && |chosen| < BATCH_SIZE
        invariant todo <= events.Keys && |chosen| <= BATCH_SIZE
        invariant forall eid :: eid in chosen ==> IsStale(View(), eid, cutoff)
        invariant forall eid :: IsStale(View(), eid, cutoff) ==> eid in chosen || eid in todo
        decreases todo
      {
        var eid :| eid in todo;
        var e := events[eid];
        if e.kind.DeleteEvent? && !e.reconciled && e.createdAt < cutoff && e.sourceId in rows
           && rows[e.sourceId].deletedAt.Some? && rows[e.sourceId].deletedAt.value < cutoff {
          chosen := chosen + {eid};
        }
        todo := todo - {eid};
      }
    }

    /** ReconcileStaleDeleteEvents: retires stale delete events until none is left or the batch is
        full. */
    method RetireStale(cutoff: int) returns (ok: bool, ghost picked: set<nat>, count: nat)
      modifies this`events
      ensures reliable ==> ok
      ensures ok ==> IsBatch(old(View()), cutoff, picked) && count == |picked|
      ensures View() == if ok then Store.Retire(old(View()), picked) else old(View())
      ensures events.Keys == old(events.Keys) && (ok ==> count <= 10000)
      ensures forall eid :: eid in events && events[eid] != old(events)[eid] ==>
                ok && old(IsOld(eid, cutoff)) && events[eid] == old(events)[eid].(reconciled := true)
      ensures ok && count < 10000 ==> forall eid :: old(IsOld(eid, cutoff)) ==> events[eid].reconciled
    {
      ok := Attempt();
      var chosen := SelectStale(cutoff);
      picked, count := chosen, |chosen|;
      if ok {
        events := map eid | eid in events ::
          if eid in chosen then events[eid].(reconciled := true) else events[eid];
      }
    }

    method AddStatusEvent(id: Id, deleted: bool) returns (ok: bool)
      modifies this`statusEvents
      ensures reliable ==> ok
      ensures statusEvents == old(statusEvents) + if ok then [(id, deleted)] else []
      ensures View() == old(View())
    {
      ok := Attempt();
      if ok { statusEvents := statusEvents + [(id, deleted)]; }
    }

    /** FindLatestDeleteEvent: the newest creation time among the delete events of a resource. */
    method FindLatestDelete(id: Id) returns (ok: bool, latest: Option<nat>)
      ensures reliable ==> ok
      ensures ok ==> IsLatestDelete(View(), id, latest)
    {
      ok := Attempt();
      latest := None;
      var todo := events.Keys;
      while todo != {}
        invariant todo <= events.Keys
        invariant forall eid :: eid in events.Keys - todo && View().IsDeleteOf(eid, id) ==>
                    latest.Some? && events[eid].createdAt <= latest.value
        invariant latest.Some? ==>
                    exists eid :: View().IsDeleteOf(eid, id) && events[eid].createdAt == latest.value
        decreases todo
      {
        var eid :| eid in todo;
        var e := events[eid];
        if e.kind.DeleteEvent? && e.sourceId == id
           && (latest.None? || latest.value < e.createdAt) {
          assert View().IsDeleteOf(eid, id);
          latest := Some(e.createdAt);
        }
        todo := todo - {eid};
      }
    }
  }

  datatype Reply = Replied(verdict: Verdict) | Republished | Throttled(latest: nat) | Disabled
                 | LookupFailed | DbError | LockError

  // What a call may leave behind

  /** `named` tells that the resource has no name or a valid one. */
  ghost predicate Created(valid: string -> bool, before: Db, after: Db, r: Reply, named: bool,
                          id: Id, consumer: string, version: int, payload: string)
  {
    var op := Store.Create(before.nextInc, consumer, version, payload, before.clock);
    var added := Store.AddRow(before, id, consumer, version, payload);
    match r
    case Replied(v) =>
      if !named then v == Invalid && after == before
      else
        && v == Judge(valid, before.Find(id), op)
        && after == (if v.Accept? then Store.AddEvent(added, id, CreateEvent, None) else before)
        && after.Find(id) == Perform(valid, before.Find(id), op)
    case DbError =>
      after == before || (named && Judge(valid, before.Find(id), op).Accept? && after == added)
    case _ => false
  }

  ghost predicate Updated(valid: string -> bool, before: Db, after: Db, r: Reply,
                          id: Id, want: int, payload: string)
  {
    var op := Update(want, payload);
    var written := Store.SetSpec(before, id, want + 1, payload);
    match r
    case Replied(v) =>
      && v == Judge(valid, before.Find(id), op)
      && after == (if v.Accept? then Store.AddEvent(written, id, UpdateEvent, None) else before)
      && after.Find(id) == Perform(valid, before.Find(id), op)
    case DbError =>
      after == before || (Judge(valid, before.Find(id), op).Accept? && after == written)
    case _ => false
  }

  ghost predicate Reported(valid: string -> bool, before: Db, after: Db, r: Reply, updated: bool,
                           id: Id, status: Status)
  {
    match r
    case Replied(v) =>
      && v == Judge(valid, before.Find(id), Report(status)) && updated == v.Accept?
      && after == (if updated then Store.SetStatus(before, id, status) else before)
      && after.Find(id) == Perform(valid, before.Find(id), Report(status))
    case DbError => !updated && after == before
    case _ => false
  }

  ghost predicate Marked(valid: string -> bool, interval: int, before: Db, after: Db, r: Reply, id: Id)
  {
    var op := MarkDeleting(before.clock);
    var marked := Store.SoftDelete(before, id);
    match r
    case Replied(v) =>
      && v == Judge(valid, before.Find(id), op) && (v.NotFound? || v.Accept?)
      && after == (if v.Accept?
                   then Store.AddEvent(marked, id, DeleteEvent, Some(before.rows[id].inc))
                   else before)
      && after.Find(id) == Perform(valid, before.Find(id), op)
    case DbError =>
      after == before || (id in before.rows && before.rows[id].Live() && after == marked)
    case LockError => false
    case _ =>
      id in before.rows && !before.rows[id].Live()
      && Repeated(interval, before, after, r, id, before.rows[id].inc)
  }

  /** A repeated delete request announces again only when no stored delete event is younger than
      the interval. */
  ghost predicate Repeated(interval: int, before: Db, after: Db, r: Reply, id: Id, inc: nat)
  {
    match r
    case Republished =>
      && interval > 0 && after == Store.AddEvent(before, id, DeleteEvent, Some(inc))
      && forall eid :: before.IsDeleteOf(eid, id) ==>
           before.events[eid].createdAt + interval <= before.clock
    case Throttled(t) =>
      interval > 0 && after == before && IsLatestDelete(before, id, Some(t))
      && before.clock - t < interval
    case Disabled => interval <= 0 && after == before
    case LookupFailed => interval > 0 && after == before
    case DbError => after == before
    case _ => false
  }

  /** sqlResourceService. Owner identifiers are random and come from the caller. */
  class ResourceService {
    const db: Database
    const locks: LockFactory
    const interval: int
    const valid: string -> bool

    constructor (db: Database, locks: LockFactory, interval: int, valid: string -> bool)
      ensures this.db == db && this.locks == locks && this.interval == interval
      ensures this.valid == valid
    {
      this.db, this.locks, this.interval, this.valid := db, locks, interval, valid;
    }

    /** Create: a valid resource under a new identifier and its create event, or, when the event
        insert fails, the row alone. */
    method Create(named: bool, given: Id, generated: Id, consumer: string, version: int, payload: string)
      returns (r: Reply)
      modifies db
      ensures db.reliable ==> r.Replied?
      ensures var id := if given == "" then generated else given;
              Created(valid, old(db.View()), db.View(), r, named, id, consumer, version, payload)
    {
      var id := if given == "" then generated else given;
      if !named { return Replied(Invalid); }
      if !valid(payload) { return Replied(Invalid); }
      var ok, taken := db.AddRow(id, consumer, version, payload);
      if taken { return Replied(Refused); }
      if !ok { return DbError; }
      ok := db.AddEvent(id, CreateEvent, None);
      if !ok { return DbError; }
      return Replied(Accept);
    }

    /** The body of Update: all or, when the event insert fails, the write alone. */
    method UpdateRow(id: Id, want: int, payload: string) returns (r: Reply)
      modifies db
      ensures db.reliable ==> r.Replied?
      ensures Updated(valid, old(db.View()), db.View(), r, id, want, payload)
    {
      var ok, found := db.Get(id);
      if !ok { return DbError; }
      if found.None? { return Replied(NotFound); }
      if found.value.deletedAt.Some? { return Replied(Deleting); }
      if found.value.version != want { return Replied(Stale); }
      if payload == found.value.payload { return Replied(Same); }
      if !valid(payload) { return Replied(Invalid); }
      ok := db.SetSpec(id, found.value.version + 1, payload);
      if !ok { return DbError; }
      ok := db.AddEvent(id, UpdateEvent, None);
      if !ok { return DbError; }
      return Replied(Accept);
    }

    /** The body of UpdateStatus; `updated` tells whether the status was written. */
    method UpdateStatusOfRow(id: Id, status: Status) returns (r: Reply, updated: bool)
      modifies db`rows
      ensures db.reliable ==> r.Replied?
      ensures Reported(valid, old(db.View()), db.View(), r, updated, id, status)
    {
      updated := false;
      var ok, found := db.Get(id);
      if !ok { return DbError, false; }
      if found.None? { return Replied(NotFound), false; }
      if found.value.version != status.version { return Replied(Stale), false; }
      if found.value.status == Some(status) { return Replied(Same), false; }
      var stored := "";
      if found.value.status.Some? { stored := found.value.status.value.seqId; }
      match SequenceIds.Compare(status.seqId, stored) {
        case Err => return Replied(Refused), false;
        case Ok(newer) =>
          if !newer { return Replied(Older), false; }
      }
      ok := db.SetStatus(id, status);
      if !ok { return DbError, false; }
      return Replied(Accept), true;
    }

    /** republishDeleteEvent for a row that was read soft deleted as incarnation `inc`. */
    method RepublishDelete(id: Id, inc: nat) returns (r: Reply)
      modifies db
      ensures db.reliable ==> !r.DbError? && !r.LookupFailed?
      ensures Repeated(interval, old(db.View()), db.View(), r, id, inc)
    {
      if interval <= 0 { return Disabled; }
      var ok, latest := db.FindLatestDelete(id);
      if !ok { return LookupFailed; }
      if latest.Some? && db.clock - latest.value < interval { return Throttled(latest.value); }
      assert forall eid :: db.View().IsDeleteOf(eid, id) ==> eid in db.View().DeletesOf(id);
      ok := db.AddEvent(id, DeleteEvent, Some(inc));
      if !ok { return DbError; }
      return Republished;
    }

    /** The body of MarkAsDeleting: a live row is marked and then announced, a marked row may be
        announced again. */
    method MarkRow(id: Id) returns (r: Reply)
      modifies db
      ensures db.reliable ==> !r.DbError? && !r.LookupFailed?
      ensures Marked(valid, interval, old(db.View()), db.View(), r, id)
    {
      var ok, found := db.Get(id);
      if !ok { return DbError; }
      if found.None? { return Replied(NotFound); }
      if found.value.deletedAt.Some? {
        r := RepublishDelete(id, found.value.inc);
        return;
      }
      ok := db.SoftDelete(id);
      if !ok { return DbError; }
      ok := db.AddEvent(id, DeleteEvent, Some(found.value.inc));
      if !ok { return DbError; }
      return Replied(Accept);
    }

    // The calls themselves hold the lock around the body and always give it back

    method Update(owner: string, id: Id, want: int, payload: string) returns (r: Reply)
      requires locks.Valid() && owner != "" && owner !in locks.store
      modifies db, locks, locks.table
      ensures db.reliable ==> r.Replied? || r.LockError?
      ensures locks.Valid() && locks.store == old(locks.store)
      ensures locks.table.holders == old(locks.table.holders)
      ensures r.LockError? == (locks.KeyOf(id, "resources") in old(locks.table.holders))
      ensures if r.LockError? then db.View() == old(db.View())
              else Updated(valid, old(db.View()), db.View(), r, id, want, payload)
    {
      var ok := locks.NewAdvisoryLock(owner, id, "resources");
      if !ok { locks.Unlock(owner); return LockError; }
      r := UpdateRow(id, want, payload);
      locks.Unlock(owner);
    }

    method UpdateStatus(owner: string, id: Id, status: Status) returns (r: Reply, updated: bool)
      requires locks.Valid() && owner != "" && owner !in locks.store
      modifies db`rows, locks, locks.table
      ensures db.reliable ==> r.Replied? || r.LockError?
      ensures locks.Valid() && locks.store == old(locks.store)
      ensures locks.table.holders == old(locks.table.holders)
      ensures r.LockError? == (locks.KeyOf(id, "resource_status") in old(locks.table.holders))
      ensures if r.LockError? then db.View() == old(db.View()) && !updated
              else Reported(valid, old(db.View()), db.View(), r, updated, id, status)
    {
      var ok := locks.NewAdvisoryLock(owner, id, "resource_status");
      if !ok { locks.Unlock(owner); return LockError, false; }
      r, updated := UpdateStatusOfRow(id, status);
      locks.Unlock(owner);
    }

    method MarkAsDeleting(owner: string, id: Id) returns (r: Reply)
      requires locks.Valid() && owner != "" && owner !in locks.store
      modifies db, locks, locks.table
      ensures db.reliable ==> !r.DbError? && !r.LookupFailed?
      ensures locks.Valid() && locks.store == old(locks.store)
      ensures locks.table.holders == old(locks.table.holders)
      ensures r.LockError? == (locks.KeyOf(id, "resources") in old(locks.table.holders))
      ensures if r.LockError? then db.View() == old(db.View())
              else Marked(valid, interval, old(db.View()), db.View(), r, id)
    {
      var ok := locks.NewAdvisoryLock(owner, id, "resources");
      if !ok { locks.Unlock(owner); return LockError; }
      r := MarkRow(id);
      locks.Unlock(owner);
    }

    /** HandleStatusUpdate: a report that the agent dropped the resource removes the row, any other
        report goes through UpdateStatus; one status event is recorded exactly when the row was
        removed or its status written. */
    method HandleStatusUpdate(owner: string, id: Id, consumer: string, status: Status, gone: bool)
      returns (ok: bool)
      requires locks.Valid() && owner != "" && owner !in locks.store
      modifies db, locks, locks.table
      ensures db.reliable && locks.KeyOf(id, "resource_status") !in old(locks.table.holders) ==>
                (ok <==>
                 || id !in old(db.rows)
                 || (&& old(db.rows)[id].consumer == consumer
                     && (gone || !Judge(valid, old(db.View()).Find(id), Report(status)).Refused?)))
      ensures locks.Valid() && locks.store == old(locks.store)
      ensures locks.table.holders == old(locks.table.holders)
      ensures var before := old(db.View());
              var known := id in before.rows && before.rows[id].consumer == consumer;
              ok ==>
                if !known then db.View() == before && db.statusEvents == old(db.statusEvents)
                else if gone then
                  && db.View() == before.(rows := before.rows - {id})
                  && db.statusEvents == old(db.statusEvents) + [(id, true)]
                else
                  && db.View() == (if Judge(valid, before.Find(id), Report(status)).Accept?
                                   then Store.SetStatus(before, id, status) else before)
                  && db.statusEvents == old(db.statusEvents)
                       + if Judge(valid, before.Find(id), Report(status)).Accept? then [(id, false)] else []
      ensures !ok ==>
                && (db.statusEvents == old(db.statusEvents)
                    || (gone && db.statusEvents == old(db.statusEvents) + [(id, true)]))
                && (db.View() == old(db.View())
                    || (!gone && Judge(valid, old(db.View()).Find(id), Report(status)).Accept?
                        && db.View() == Store.SetStatus(old(db.View()), id, status)))
      ensures ok && id in old(db.rows) ==>
                && old(db.rows)[id].consumer == consumer
                && (gone || !Judge(valid, old(db.View()).Find(id), Report(status)).Refused?)
    {
      var found;
      ok, found := db.Get(id);
      if !ok { return false; }
      if found.None? { return true; }
      if found.value.consumer != consumer { return false; }
      if gone {
        ok := db.AddStatusEvent(id, true);
        if !ok { return false; }
        ok := db.HardDelete(id);
        return ok;
      }
      var r, updated := UpdateStatus(owner, id, status);
      if !r.Replied? || r.verdict.NotFound? || r.verdict.Refused? { return false; }
      if updated {
        ok := db.AddStatusEvent(id, false);
        return ok;
      }
      return true;
    }
  }
}
