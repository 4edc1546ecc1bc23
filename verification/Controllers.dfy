/** The event controller and the detectors of one replica as their code runs
    (pkg/controllers/framework.go, stale_delete_detector.go, undelivered_detector.go, and the
    handlers in pkg/client/cloudevents/source_client.go). */
module Controllers {
  import opened Wrappers
  import opened Store
  import opened Locks
  import opened Service

  class Broker {
    const reliable: bool  // no call fails
    var sent: seq<(Kind, Id)>

    constructor (reliable: bool)
      ensures sent == [] && this.reliable == reliable
    {
      this.reliable, sent := reliable, [];
    }

    method Publish(kind: Kind, id: Id) returns (ok: bool)
      modifies this
      ensures sent == old(sent) + if ok then [(kind, id)] else []
      ensures reliable ==> ok
    {
      if reliable { ok := true; } else { ok := *; }
      if ok { sent := sent + [(kind, id)]; }
    }
  }

  /** What one successful handler call publishes for a row. The message queue handlers insist on the
      mark before a delete request, those of the gRPC broker do not. */
  function Request(insists: bool, kind: Kind, row: Option<Row>, id: Id): seq<(Kind, Id)>
  {
    if row.None? || (row.value.Live() && kind.DeleteEvent? && insists)
       || (!row.value.Live() && !kind.DeleteEvent?)
    then []
    else [(kind, id)]
  }

  function Requests(insists: bool, kind: Kind, row: Option<Row>, id: Id, n: nat): seq<(Kind, Id)>
  {
    if n == 0 then [] else Requests(insists, kind, row, id, n - 1) + Request(insists, kind, row, id)
  }

  /** So many handlers make so many requests, or none at all. */
  lemma {:induction false} RequestsAre(insists: bool, kind: Kind, row: Option<Row>, id: Id, n: nat)
    ensures Requests(insists, kind, row, id, n) ==
            if row.None? || (row.value.Live() && kind.DeleteEvent? && insists)
               || (!row.value.Live() && !kind.DeleteEvent?)
            then [] else seq(n, _ => (kind, id))
  {
    if n > 0 { RequestsAre(insists, kind, row, id, n - 1); }
  }

  class KindControllerManager {
    const db: Database
    const filter: EventFilter
    const broker: Broker
    const handlers: map<Kind, nat>
    const insists: bool
    const name: nat -> string
    var queue: set<nat>

    constructor (db: Database, filter: EventFilter, broker: Broker, handlers: map<Kind, nat>,
                 insists: bool, name: nat -> string)
      ensures this.db == db && this.filter == filter && this.broker == broker
      ensures this.handlers == handlers && this.insists == insists && this.name == name && queue == {}
    {
      this.db, this.filter, this.broker := db, filter, broker;
      this.handlers, this.insists, this.name, queue := handlers, insists, name, {};
    }

    /** OnCreate, OnUpdate and OnDelete. On success a create or update event of a live row and a delete
        event of a marked one make exactly one request. A create or update event of a marked row and
        any event of a missing row make none. A delete event of a live row is an error with the
        message queue and a request with the gRPC broker. */
    method OnEvent(kind: Kind, id: Id) returns (ok: bool)
      modifies broker
      ensures broker.sent == old(broker.sent)
              || broker.sent == old(broker.sent) + Request(insists, kind, db.View().Find(id), id)
      ensures ok ==> broker.sent == old(broker.sent) + Request(insists, kind, db.View().Find(id), id)
      ensures ok && id in db.rows && kind.DeleteEvent? == db.rows[id].deletedAt.Some? ==>
                broker.sent == old(broker.sent) + [(kind, id)]
      ensures id !in db.rows || (!kind.DeleteEvent? && db.rows[id].deletedAt.Some?) ==>
                broker.sent == old(broker.sent)
      ensures kind.DeleteEvent? && id in db.rows && db.rows[id].deletedAt.None? ==>
                if insists then !ok && broker.sent == old(broker.sent)
                else ok ==> broker.sent == old(broker.sent) + [(kind, id)]
      ensures db.reliable && broker.reliable ==>
                (ok <==> !(insists && kind.DeleteEvent? && id in db.rows && db.rows[id].deletedAt.None?))
    {
      var found;
      ok, found := db.Get(id);
      if !ok { return false; }
      if found.None? { return true; }
      if kind.DeleteEvent? {
        if found.value.Live() && insists { return false; }
      } else if !found.value.Live() {
        return true;
      }
      ok := broker.Publish(kind, id);
    }

    /** The part of handleEvent between the filter and its deferred action. The event is marked
        reconciled exactly when every registered handler has succeeded, and by then it has made one
        request for each of them if the row is in the state its kind speaks of, and none if the row is
        missing or marked under a create or update event. */
    method Process(eid: nat) returns (done: bool)
      modifies db`events, broker
      ensures var before := old(db.View());
              var pending := eid in before.events && !before.events[eid].reconciled
                             && before.events[eid].kind in handlers;
              if !pending then db.View() == before && broker.sent == old(broker.sent)
              else
                var e := before.events[eid];
                var n := handlers[e.kind];
                if done then
                  && db.View() == Store.SaveReconciled(before, eid, e)
                  && broker.sent == old(broker.sent) + Requests(insists, e.kind, before.Find(e.sourceId), e.sourceId, n)
                else
                  && db.View() == before
                  && exists k :: 0 <= k <= n && broker.sent ==
                       old(broker.sent) + Requests(insists, e.kind, before.Find(e.sourceId), e.sourceId, k)
      ensures done ==> Delivered(old(db.View()), old(broker.sent), broker.sent, eid)
      ensures done ==> forall other :: other in db.events ==>
                other in old(db.events) && (other != eid ==> db.events[other] == old(db.events)[other])
      ensures done && eid in db.events && db.events[eid].kind in handlers ==> db.events[eid].reconciled
      ensures db.reliable && broker.reliable ==> (done <==> !Insists(old(db.View()), eid))
    {
      ghost var sent := broker.sent;
      var ok, found := db.GetEvent(eid);
      if !ok {
        assert eid in db.events && db.events[eid].kind in handlers ==>
                 sent == sent + Requests(insists, db.events[eid].kind, db.View().Find(db.events[eid].sourceId),
                                         db.events[eid].sourceId, 0);
        return false;
      }
      if found.None? { return true; }
      var e := found.value;
      if e.reconciled { return true; }
      if e.kind !in handlers { return true; }
      ghost var row := db.View().Find(e.sourceId);
      var k := 0;
      while k < handlers[e.kind]
        invariant 0 <= k <= handlers[e.kind] && db.View() == old(db.View())
        invariant broker.sent == sent + Requests(insists, e.kind, row, e.sourceId, k)
        invariant k > 0 && insists && e.kind.DeleteEvent? && row.Some? ==> !row.value.Live()
      {
        ok := OnEvent(e.kind, e.sourceId);
        if !ok {
          if broker.sent != sent + Requests(insists, e.kind, row, e.sourceId, k) {
            assert broker.sent == sent + Requests(insists, e.kind, row, e.sourceId, k + 1);
          }
          return false;
        }
        k := k + 1;
      }
      done := db.SaveReconciled(eid, e);
      RequestsAre(insists, e.kind, row, e.sourceId, handlers[e.kind]);
    }

    /** A delete event to be handled by the message queue, of a row that is not marked. */
    ghost predicate Insists(before: Db, eid: nat)
    {
      && insists && eid in before.events && before.events[eid].kind == DeleteEvent
      && !before.events[eid].reconciled && DeleteEvent in handlers && handlers[DeleteEvent] > 0
      && before.events[eid].sourceId in before.rows
      && before.rows[before.events[eid].sourceId].deletedAt.None?
    }

    /** What was published for an event that is done with. */
    ghost predicate Delivered(before: Db, sent: seq<(Kind, Id)>, sent': seq<(Kind, Id)>, eid: nat)
    {
      if eid in before.events && !before.events[eid].reconciled && before.events[eid].kind in handlers then
        var e := before.events[eid];
        var n := handlers[e.kind];
        if e.sourceId !in before.rows || (!e.kind.DeleteEvent? && before.rows[e.sourceId].deletedAt.Some?)
        then sent' == sent
        else
          && (n > 0 && insists ==> e.kind.DeleteEvent? == before.rows[e.sourceId].deletedAt.Some?)
          && sent' == sent + seq(n, _ => (e.kind, e.sourceId))
      else sent' == sent
    }

    /** handleEvent: nothing happens without the event's lock, and every lock is given back. */
    method HandleEvent(owner: string, eid: nat) returns (done: bool)
      requires filter.factory.Valid() && owner != "" && owner !in filter.factory.store
      requires name(eid) !in filter.locks
      modifies db`events, broker, filter, filter.factory, filter.factory.table
      ensures filter.factory.Valid() && filter.locks == old(filter.locks)
      ensures filter.factory.store == old(filter.factory.store)
      ensures filter.factory.table.holders == old(filter.factory.table.holders)
      ensures Handled(old(db.View()), db.View(), eid, done)
      ensures done ==> Delivered(old(db.View()), old(broker.sent), broker.sent, eid)
      ensures db.reliable && broker.reliable ==>
                (done <==> filter.factory.KeyOf(name(eid), "events") !in old(filter.factory.table.holders)
                           && !Insists(old(db.View()), eid))
      ensures filter.factory.KeyOf(name(eid), "events") in old(filter.factory.table.holders) ==>
                !done && db.View() == old(db.View()) && broker.sent == old(broker.sent)
    {
      var process := filter.Filter(owner, name(eid));
      done := false;
      if process {
        done := Process(eid);
      }
      filter.DeferredAction(name(eid));
    }

    /** An event that handleEvent is done with is not waiting any more, and no other changes. */
    ghost predicate Handled(before: Db, after: Db, eid: nat, done: bool)
    {
      && (after == before
          || (eid in before.events && after == Store.SaveReconciled(before, eid, before.events[eid])))
      && (done ==> !Waiting(after, eid))
      && (!done ==> after == before)
    }

    predicate Waiting(db: Db, eid: nat)
    {
      eid in db.events && !db.events[eid].reconciled && db.events[eid].kind in handlers
    }

    /** No waiting event is forgotten. */
    ghost predicate Covered()
      reads this, db
    {
      forall eid :: Waiting(db.View(), eid) ==> eid in queue
    }

    /** processNextEvent: an event leaves the queue only when it is done with. */
    method ProcessNext(owner: string, eid: nat)
      requires filter.factory.Valid() && owner != "" && owner !in filter.factory.store
      requires name(eid) !in filter.locks && eid in queue && Covered()
      modifies this, db`events, broker, filter, filter.factory, filter.factory.table
      ensures Covered() && queue <= old(queue)
      ensures forall other :: other != eid && other in old(queue) ==> other in queue
      ensures eid !in queue ==> !Waiting(db.View(), eid)
      ensures eid !in queue ==> Delivered(old(db.View()), old(broker.sent), broker.sent, eid)
      ensures db.reliable && broker.reliable ==>
                (eid !in queue <==>
                 && filter.factory.KeyOf(name(eid), "events") !in old(filter.factory.table.holders)
                 && !Insists(old(db.View()), eid))
    {
      queue := queue - {eid};
      var done := HandleEvent(owner, eid);
      if !done { queue := queue + {eid}; }
    }

    /** syncEvents: removes exactly the reconciled events, and queues every event that is left. */
    method SyncEvents() returns (ok: bool)
      modifies this, db`events
      ensures db.reliable ==> ok
      ensures ok ==> Covered() && queue == old(queue) + db.events.Keys
      ensures ok ==> forall eid :: eid in db.events <==> eid in old(db.events) && !old(db.events)[eid].reconciled
      ensures forall eid :: eid in db.events ==> eid in old(db.events) && db.events[eid] == old(db.events)[eid]
      ensures forall eid :: eid in old(db.events) && !old(db.events)[eid].reconciled ==> eid in db.events
      ensures old(Covered()) ==> Covered()
      ensures old(queue) <= queue
    {
      ok := db.PurgeReconciled();
      if !ok { return; }
      var waiting := set eid | eid in db.events && !db.events[eid].reconciled;
      ok := db.Attempt();
      if ok { queue := queue + waiting; }
    }
  }

  /** StaleDeleteDetector. */
  class StaleDeleteDetector {
    const db: Database
    const locks: LockFactory
    const threshold: int

    constructor (db: Database, locks: LockFactory, threshold: int)
      ensures this.db == db && this.locks == locks && this.threshold == threshold
    {
      this.db, this.locks, this.threshold := db, locks, threshold;
    }

    /** A pass marks only old events reconciled, at most a batch of them, and all when it marks fewer. */
    method Run(owner: string) returns (count: Option<nat>)
      requires locks.Valid() && owner != "" && owner !in locks.store
      modifies db`events, locks, locks.table
      ensures locks.Valid() && locks.store == old(locks.store)
      ensures locks.table.holders == old(locks.table.holders)
      ensures count.None? ==> db.View() == old(db.View())
      ensures db.reliable ==>
                (count.Some? <==>
                 locks.KeyOf("maestro-stale-delete-check", "instances") !in old(locks.table.holders))
      ensures count.Some? ==>
                && locks.KeyOf("maestro-stale-delete-check", "instances") !in old(locks.table.holders)
                && exists picked :: IsBatch(old(db.View()), db.clock - threshold, picked)
                     && |picked| == count.value && db.View() == Store.Retire(old(db.View()), picked)
      ensures db.events.Keys == old(db.events.Keys)
      ensures forall eid :: eid in db.events && db.events[eid] != old(db.events)[eid] ==>
                old(db.IsOld(eid, db.clock - threshold)) && db.events[eid] == old(db.events)[eid].(reconciled := true)
      ensures count.Some? ==> count.value <= 10000
      ensures count.Some? && count.value < 10000 ==>
                forall eid :: old(db.IsOld(eid, db.clock - threshold)) ==> db.events[eid].reconciled
    {
      var acquired := locks.NewNonBlockingLock(owner, "maestro-stale-delete-check", "instances");
      count := None;
      if acquired {
        var ok, picked, n := db.RetireStale(db.clock - threshold);
        if ok { count := Some(n); }
      }
      locks.Unlock(owner);
    }
  }

  /** UndeliveredDetector; `consumers` are the names in the consumer table. */
  class UndeliveredDetector {
    const db: Database
    const locks: LockFactory
    const threshold: int

    constructor (db: Database, locks: LockFactory, threshold: int)
      ensures this.db == db && this.locks == locks && this.threshold == threshold
    {
      this.db, this.locks, this.threshold := db, locks, threshold;
    }

    /** The resources that need an event. */
    ghost function Lacking(consumers: set<string>, view: Db): set<Id>
    {
      set id | id in view.rows && IsUndelivered(view, consumers, view.clock - threshold, id)
    }

    /** Live, without any status, created before the cutoff, and of a known consumer. */
    ghost predicate IsOverdue(consumers: set<string>, view: Db, id: Id)
    {
      && id in view.rows && view.rows[id].deletedAt == None && view.rows[id].status == None
      && view.rows[id].createdAt < view.clock - threshold && view.rows[id].consumer in consumers
    }

    /** An event of the resource is still to be handled. */
    ghost predicate HasEvent(view: Db, id: Id)
    {
      exists eid :: eid in view.events && view.events[eid].sourceId == id && view.events[eid].reconciled == false
    }

    lemma LackingIff(consumers: set<string>, view: Db, id: Id)
      ensures id in Lacking(consumers, view) <==> IsOverdue(consumers, view, id) && !HasEvent(view, id)
    {}

    method Find(consumers: set<string>) returns (ok: bool, found: set<Id>)
      ensures db.reliable ==> ok
      ensures ok ==> found == Lacking(consumers, db.View())
      ensures ok ==> forall id :: id in found <==>
                IsOverdue(consumers, db.View(), id) && !HasEvent(db.View(), id)
    {
      ok := db.Attempt();
      var busy := set eid | eid in db.events && !db.events[eid].reconciled :: db.events[eid].sourceId;
      found := set id | id in db.rows && db.rows[id].Live() && db.rows[id].status.None?
                        && db.rows[id].createdAt < db.clock - threshold
                        && db.rows[id].consumer in consumers && id !in busy;
      assert forall id :: HasPending(db.View(), id) <==> id in busy;
    }

    /** Nothing but fresh create or update events for resources in `ids` was added. */
    ghost predicate OnlyAdds(before: Db, after: Db, ids: set<Id>)
    {
      && after.clock == before.clock && after.rows == before.rows
      && before.nextEvent <= after.nextEvent
      && (forall eid :: eid in before.events ==> eid in after.events && after.events[eid] == before.events[eid])
      && (forall eid :: eid in after.events && eid !in before.events ==>
            && after.events[eid].sourceId in ids && after.events[eid].sourceId in before.rows
            && !after.events[eid].reconciled && after.events[eid].createdAt == before.clock
            && after.events[eid].kind == (if before.rows[after.events[eid].sourceId].version > 1
                                          then UpdateEvent else CreateEvent))
    }

    lemma StillPending(before: Db, after: Db, ids: set<Id>, id: Id)
      requires OnlyAdds(before, after, ids) && HasPending(before, id)
      ensures HasPending(after, id)
    {
      var e :| e in before.events && before.events[e].sourceId == id && !before.events[e].reconciled;
      assert after.events[e] == before.events[e];
    }

    lemma OneMoreEvent(start: Db, before: Db, ids: set<Id>, id: Id, kind: Kind)
      requires OnlyAdds(start, before, ids) && id in ids && id in start.rows
      requires forall eid :: eid in before.events ==> eid < before.nextEvent
      requires kind == if start.rows[id].version > 1 then UpdateEvent else CreateEvent
      ensures var after := Store.AddEvent(before, id, kind, None);
              && OnlyAdds(start, after, ids) && HasPending(after, id)
              && forall other :: HasPending(before, other) ==> HasPending(after, other)
    {
      var after := Store.AddEvent(before, id, kind, None);
      assert after.events[before.nextEvent].sourceId == id;
      forall other | HasPending(before, other) ensures HasPending(after, other) {
        var e :| e in before.events && before.events[e].sourceId == other && !before.events[e].reconciled;
        assert after.events[e] == before.events[e];
      }
    }

    /** One event for each resource; a failing insert is skipped. */
    method Republish(consumers: set<string>, found: set<Id>) returns (complete: bool)
      requires found == Lacking(consumers, db.View())
      requires forall eid :: eid in db.events ==> eid < db.nextEvent
      modifies db`events, db`nextEvent, db`issued
      ensures OnlyAdds(old(db.View()), db.View(), found)
      ensures complete ==>
                && (forall id :: id in found ==> HasPending(db.View(), id))
                && db.nextEvent == old(db.nextEvent) + |found|
      ensures found == {} ==> complete && db.View() == old(db.View())
      ensures db.reliable ==> complete
    {
      complete := true;
      var todo := found;
      while todo != {}
        invariant todo <= found && OnlyAdds(old(db.View()), db.View(), found)
        invariant forall eid :: eid in db.events ==> eid < db.nextEvent
        invariant complete ==> forall id :: id in found && id !in todo ==> HasPending(db.View(), id)
        invariant complete ==> db.nextEvent + |todo| == old(db.nextEvent) + |found|
        invariant found == {} ==> complete && db.View() == old(db.View())
        invariant db.reliable ==> complete
        decreases todo
      {
        var id :| id in todo;
        var kind := CreateEvent;
        if db.rows[id].version > 1 { kind := UpdateEvent; }
        ghost var before := db.View();
        var ok := db.AddEvent(id, kind, None);
        if ok {
          OneMoreEvent(old(db.View()), before, found, id, kind);
        } else {
          complete := false;
        }
        todo := todo - {id};
      }
    }

    /** After a pass without insert errors no resource lacks an event, one event was added for each
        that did, and a pass that finds none adds none. */
    ghost predicate Repaired(consumers: set<string>, before: Db, after: Db, complete: bool)
    {
      && OnlyAdds(before, after, Lacking(consumers, before))
      && (complete ==> Lacking(consumers, after) == {}
                       && after.nextEvent == before.nextEvent + |Lacking(consumers, before)|)
      && (Lacking(consumers, before) == {} ==> after == before)
    }

    /** The same, of the resources as they are stored: after a complete pass every overdue one has an
        event under way, and an event is added only for an overdue one that had none. */
    ghost predicate Delivers(consumers: set<string>, before: Db, after: Db, complete: bool)
    {
      && (complete ==> forall id :: IsOverdue(consumers, after, id) ==> HasEvent(after, id))
      && (forall eid :: eid in after.events && eid !in before.events ==>
            IsOverdue(consumers, before, after.events[eid].sourceId) && !HasEvent(before, after.events[eid].sourceId))
    }

    lemma RepairDelivers(consumers: set<string>, before: Db, after: Db, complete: bool)
      requires Repaired(consumers, before, after, complete)
      ensures Delivers(consumers, before, after, complete)
    {
      forall id ensures id in Lacking(consumers, before) <==> IsOverdue(consumers, before, id) && !HasEvent(before, id) {
        LackingIff(consumers, before, id);
      }
      forall id ensures id in Lacking(consumers, after) <==> IsOverdue(consumers, after, id) && !HasEvent(after, id) {
        LackingIff(consumers, after, id);
      }
    }

    method Repair(consumers: set<string>) returns (complete: bool)
      requires forall eid :: eid in db.events ==> eid < db.nextEvent
      modifies db`events, db`nextEvent, db`issued
      ensures Repaired(consumers, old(db.View()), db.View(), complete)
      ensures Delivers(consumers, old(db.View()), db.View(), complete)
      ensures db.reliable ==> complete
    {
      var ok, found := Find(consumers);
      if !ok { return false; }
      complete := Republish(consumers, found);
      forall id | HasPending(old(db.View()), id) ensures HasPending(db.View(), id) {
        StillPending(old(db.View()), db.View(), found, id);
      }
      RepairDelivers(consumers, old(db.View()), db.View(), complete);
    }

    method Run(owner: string, consumers: set<string>) returns (complete: bool)
      requires locks.Valid() && owner != "" && owner !in locks.store
      requires forall eid :: eid in db.events ==> eid < db.nextEvent
      modifies db`events, db`nextEvent, db`issued, locks, locks.table
      ensures locks.Valid() && locks.store == old(locks.store)
      ensures locks.table.holders == old(locks.table.holders)
      ensures Repaired(consumers, old(db.View()), db.View(), complete)
      ensures db.reliable ==>
                (complete <==>
                 locks.KeyOf("maestro-undelivered-check", "instances") !in old(locks.table.holders))
      ensures Delivers(consumers, old(db.View()), db.View(), complete)
    {
      var acquired := locks.NewNonBlockingLock(owner, "maestro-undelivered-check", "instances");
      complete := false;
      if acquired { complete := Repair(consumers); }
      locks.Unlock(owner);
    }
  }
}
