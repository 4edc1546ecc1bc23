/** Runs that show where the guarantees end. */
module Limits {
  import opened Wrappers
  import opened Store
  import opened System
  import opened Discipline
  import Division
  import Lifecycle
  import Delivery
  import SequenceIds
  import Serial
  import Throttle

  lemma {:induction false} ExecConcat(cfg: Config, s: State, run: seq<Action>, a: Action)
    requires IsRun(cfg, s, run) && Can(cfg, Exec(cfg, s, run), a)
    ensures IsRun(cfg, s, run + [a])
    ensures Exec(cfg, s, run + [a]) == Next(cfg, Exec(cfg, s, run), a)
    decreases run
  {
    if run == [] {
      assert run + [a] == [a];
    } else {
      assert (run + [a])[0] == run[0] && (run + [a])[1..] == run[1..] + [a];
      ExecConcat(cfg, Next(cfg, s, run[0]), run[1..], a);
    }
  }

  lemma Take(cfg: Config, s: State, a: Action) returns (t: State)
    requires Reachable(cfg, s) && Can(cfg, s, a)
    ensures Reachable(cfg, t) && t == Next(cfg, s, a)
  {
    t := Next(cfg, s, a);
    var run :| IsRun(cfg, Init, run) && Exec(cfg, Init, run) == s;
    ExecConcat(cfg, Init, run, a);
  }

  lemma Start(cfg: Config)
    ensures Reachable(cfg, Init)
  {
    assert IsRun(cfg, Init, []) && Exec(cfg, Init, []) == Init;
  }

  const Yes := Choice(true, {}, None, "", CreateEvent)

  /** `t` is `s` after one more process that is now at `q`, with its effect on the tables. */
  ghost predicate After(cfg: Config, s: State, t: State, db: Db, locks: map<Key, Pid>, q: Option<Proc>)
  {
    && Reachable(cfg, t) && t.db == db && t.locks == locks && t.nextPid == s.nextPid + 1
    && t.procs == (if q.Some? then s.procs[s.nextPid := q.value] else s.procs - {s.nextPid})
    && s.log <= t.log
  }

  /** The newest process takes a step. */
  lemma Advance(cfg: Config, s: State, t: State, next: Proc) returns (u: State)
    requires Reachable(cfg, t) && t.nextPid == s.nextPid + 1 && Can(cfg, t, Go(s.nextPid, Yes))
    requires t.procs == s.procs[s.nextPid := t.procs[s.nextPid]] && s.log <= t.log
    requires Plan(cfg, t, t.procs[s.nextPid], Yes).1 == next
    ensures var e := Plan(cfg, t, t.procs[s.nextPid], Yes).0;
            && After(cfg, s, u, Act(t.db, e),
                     if e.Take? then t.locks[e.key := s.nextPid] else t.locks, Some(next))
            && |u.log| == |t.log| + 1
            && u.log[|t.log|] == Record(t.db, s.nextPid, t.procs[s.nextPid], e)
  {
    u := Take(cfg, t, Go(s.nextPid, Yes));
  }

  // Stretches of runs

  lemma CreateRow(cfg: Config, s: State, id: Id, version: int) returns (t: State)
    requires Reachable(cfg, s) && id !in s.db.rows && cfg.valid("x")
    ensures After(cfg, s, t, AddRow(s.db, id, "c", version, "x"), s.locks, Some(Spec(CreEvent(id))))
  {
    t := Take(cfg, s, Spawn(Spec(CreRow(id, "c", version, "x"))));
    t := Take(cfg, t, Go(s.nextPid, Yes));
  }

  lemma DropRow(cfg: Config, s: State, id: Id, st: Status) returns (t: State)
    requires Reachable(cfg, s) && id in s.db.rows && s.db.rows[id].consumer == "c"
    ensures After(cfg, s, t, HardDelete(s.db, id), s.locks, Some(Done(Completed)))
  {
    t := Take(cfg, s, Spawn(Feedback(StaGet(id, "c", st, true))));
    t := Take(cfg, t, Go(s.nextPid, Yes));
    t := Take(cfg, t, Go(s.nextPid, Yes));
  }

  lemma ReadForReport(cfg: Config, s: State, id: Id, st: Status) returns (t: State)
    requires Reachable(cfg, s) && id in s.db.rows && s.db.rows[id].consumer == "c"
    requires cfg.hash(StatusLock(id)) !in s.locks
    requires Judge(cfg.valid, Some(s.db.rows[id]), Report(st)).Accept?
    ensures After(cfg, s, t, s.db, s.locks[cfg.hash(StatusLock(id)) := s.nextPid],
                  Some(Feedback(StaWrite(id, st, s.db.rows[id]))))
  {
    t := Take(cfg, s, Spawn(Feedback(StaGet(id, "c", st, false))));
    t := Take(cfg, t, Go(s.nextPid, Yes));
    t := Take(cfg, t, Go(s.nextPid, Yes));
    t := Take(cfg, t, Go(s.nextPid, Yes));
  }

  /** A delete request up to its soft delete. */
  lemma SoftDeleteRow(cfg: Config, s: State, id: Id) returns (t: State)
    requires Reachable(cfg, s) && id in s.db.rows && s.db.rows[id].Live()
    requires cfg.hash(ResourceLock(id)) !in s.locks
    ensures var inc := s.db.rows[id].inc;
            && After(cfg, s, t, SoftDelete(s.db, id), s.locks[cfg.hash(ResourceLock(id)) := s.nextPid],
                     Some(Deletion(DelEvent(id, Some(inc)))))
            && |t.log| == |s.log| + 3 && Delivery.SoftDeletes(t.log[|s.log| + 2], id, inc)
  {
    t := Take(cfg, s, Spawn(Deletion(DelLock(id))));
    t := Advance(cfg, s, t, Deletion(DelRead(id)));
    t := Advance(cfg, s, t, Deletion(DelSoft(id)));
    t := Advance(cfg, s, t, Deletion(DelEvent(id, Some(s.db.rows[id].inc))));
  }

  /** A whole delete request. */
  lemma DeleteRow(cfg: Config, s: State, id: Id) returns (t: State)
    requires Reachable(cfg, s) && id in s.db.rows && s.db.rows[id].Live() && s.locks == map[]
    requires s.nextPid !in s.procs
    ensures After(cfg, s, t, AddEvent(SoftDelete(s.db, id), id, DeleteEvent, Some(s.db.rows[id].inc)),
                  map[], None)
  {
    t := SoftDeleteRow(cfg, s, id);
    t := Take(cfg, t, Go(s.nextPid, Yes));
    t := Take(cfg, t, End(s.nextPid));
  }

  /** A repeated delete request up to its look at the row. */
  lemma AskAgain(cfg: Config, s: State, id: Id) returns (t: State)
    requires Reachable(cfg, s) && id in s.db.rows && !s.db.rows[id].Live()
    requires cfg.hash(ResourceLock(id)) !in s.locks
    ensures After(cfg, s, t, s.db, s.locks[cfg.hash(ResourceLock(id)) := s.nextPid],
                  Some(if cfg.interval <= 0 then Done(Disabled)
                       else Deletion(RepFind(id, s.db.rows[id].inc))))
  {
    t := Take(cfg, s, Spawn(Deletion(DelLock(id))));
    t := Take(cfg, t, Go(s.nextPid, Yes));
    t := Take(cfg, t, Go(s.nextPid, Yes));
  }

  lemma FindNoDelete(cfg: Config, s: State, t: State, id: Id, inc: nat) returns (u: State)
    requires After(cfg, s, t, s.db, map[cfg.hash(ResourceLock(id)) := s.nextPid],
                   Some(Deletion(RepFind(id, inc))))
    requires s.db.DeletesOf(id) == {}
    ensures After(cfg, s, u, s.db, t.locks, Some(Deletion(RepEvent(id, inc))))
  {
    u := Advance(cfg, s, t, Deletion(RepCheck(id, inc, None)));
    u := Advance(cfg, s, u, Deletion(RepEvent(id, inc)));
  }

  /** A repeated delete request that finds no stored delete event. */
  lemma Republish(cfg: Config, s: State, id: Id) returns (t: State)
    requires Reachable(cfg, s) && id in s.db.rows && !s.db.rows[id].Live() && s.locks == map[]
    requires cfg.interval > 0 && s.db.DeletesOf(id) == {} && s.nextPid !in s.procs
    ensures After(cfg, s, t, AddEvent(s.db, id, DeleteEvent, Some(s.db.rows[id].inc)), map[], None)
  {
    t := AskAgain(cfg, s, id);
    t := FindNoDelete(cfg, s, t, id, s.db.rows[id].inc);
    t := Advance(cfg, s, t, Done(Completed));
    t := Take(cfg, t, End(s.nextPid));
  }

  /** A worker of a gRPC replica whose predicate let the event pass. */
  lemma PassPredicate(cfg: Config, s: State, eid: nat) returns (t: State)
    requires Reachable(cfg, s) && eid in s.db.events && !s.db.events[eid].reconciled
    requires s.db.events[eid].sourceId in s.db.rows
    ensures |t.log| == |s.log| + 2
    ensures After(cfg, s, t, s.db, s.locks, Some(Work(EvGet(eid, false))))
  {
    t := Take(cfg, s, Spawn(Work(PreGet(eid))));
    t := Advance(cfg, s, t, Work(PreRow(eid, s.db.events[eid])));
    t := Advance(cfg, s, t, Work(EvGet(eid, false)));
  }

  /** One that has read the event and the row. */
  lemma ReadForHandler(cfg: Config, s: State, eid: nat) returns (t: State)
    requires Reachable(cfg, s) && eid in s.db.events && !s.db.events[eid].reconciled
    requires s.db.events[eid].sourceId in s.db.rows
    requires s.db.events[eid].kind in cfg.handlers && cfg.handlers[s.db.events[eid].kind] == 1
    requires s.db.events[eid].kind.DeleteEvent? || s.db.rows[s.db.events[eid].sourceId].Live()
    ensures |t.log| == |s.log| + 4
    ensures var event := s.db.events[eid];
            After(cfg, s, t, s.db, s.locks,
                  Some(Work(EvSend(eid, event, 0, s.db.rows[event.sourceId], |s.log| + 3, false))))
  {
    var event := s.db.events[eid];
    t := PassPredicate(cfg, s, eid);
    t := Advance(cfg, s, t, Work(EvRow(eid, event, 0, false)));
    t := Advance(cfg, s, t, Work(EvSend(eid, event, 0, s.db.rows[event.sourceId], |t.log|, false)));
  }

  lemma ReadToSave(cfg: Config, s: State, eid: nat) returns (t: State)
    requires Reachable(cfg, s) && eid in s.db.events && !s.db.events[eid].reconciled
    requires s.db.events[eid].sourceId in s.db.rows && s.db.events[eid].kind.DeleteEvent?
    requires DeleteEvent in cfg.handlers && cfg.handlers[DeleteEvent] == 1
    ensures After(cfg, s, t, s.db, s.locks, Some(Work(EvSave(eid, s.db.events[eid], false))))
  {
    t := ReadForHandler(cfg, s, eid);
    t := Advance(cfg, s, t, Work(EvSave(eid, s.db.events[eid], false)));
  }

  /** Two such workers on the only event, a delete event. The faster one is done and the event is
      purged, the other is about to save its copy. */
  lemma SlowAndFast(cfg: Config, s: State, event: Event) returns (t: State)
    requires Reachable(cfg, s) && s.db.events == map[0 := event] && !event.reconciled
    requires event.sourceId in s.db.rows && event.kind.DeleteEvent?
    requires DeleteEvent in cfg.handlers && cfg.handlers[DeleteEvent] == 1
    ensures Reachable(cfg, t) && t.db == s.db.(events := map[])
    ensures t.locks == s.locks && t.nextPid == s.nextPid + 2 && t.nextPid - 2 in t.procs
    ensures t.procs == s.procs[s.nextPid := Work(EvSave(0, event, false))]
                       [s.nextPid + 1 := Done(Completed)]
  {
    t := ReadToSave(cfg, s, 0);
    var u := ReadToSave(cfg, t, 0);
    t := Advance(cfg, t, u, Done(Completed));
    t := Take(cfg, t, Purge);
  }

  // Where the guarantees end

  /** A status report that is under way while its row is hard deleted and created again lands on
      the new row: the stored status is ahead of its row, as after no serial order of operations. */
  lemma StatusCanBeAhead(cfg: Config) returns (s: State)
    requires cfg.valid("x")
    ensures Reachable(cfg, s) && "a" in s.db.rows && !Lifecycle.StatusBounded(s.db.rows["a"])
    ensures forall valid, ops :: Serial.Replay(valid, None, ops) != s.db.Find("a")
  {
    var st := Status(5, "1", "");
    Start(cfg);
    s := CreateRow(cfg, Init, "a", 5);
    s := ReadForReport(cfg, s, "a", st);
    s := DropRow(cfg, s, "a", st);
    s := CreateRow(cfg, s, "a", 1);
    s := Take(cfg, s, Go(1, Yes));
    forall valid, ops ensures Serial.Replay(valid, None, ops) != s.db.Find("a") {
      Serial.SerialIsBounded(valid, None, ops);
    }
  }

  lemma ReadForUpdate(cfg: Config, s: State, id: Id, payload: string) returns (t: State)
    requires Reachable(cfg, s) && id in s.db.rows && cfg.hash(ResourceLock(id)) !in s.locks
    requires Judge(cfg.valid, Some(s.db.rows[id]), Update(s.db.rows[id].version, payload)).Accept?
    ensures var want := s.db.rows[id].version;
            After(cfg, s, t, s.db, s.locks[cfg.hash(ResourceLock(id)) := s.nextPid],
                  Some(Spec(UpdWrite(id, want, payload, s.db.rows[id]))))
  {
    var want := s.db.rows[id].version;
    t := Take(cfg, s, Spawn(Spec(UpdLock(id, want, payload))));
    t := Advance(cfg, s, t, Spec(UpdRead(id, want, payload)));
    t := Advance(cfg, s, t, Spec(UpdWrite(id, want, payload, s.db.rows[id])));
  }

  /** The identifier was dropped and created again while an update of its first version has yet to
      write. */
  lemma LateUpdate(cfg: Config, version: int) returns (s: State)
    requires cfg.valid("x") && cfg.valid("y") && version > 0
    ensures Reachable(cfg, s) && s.nextPid == 4
    ensures s.db.rows == map["a" := NewRow(1, "c", version, "x", 0)]
    ensures s.locks == map[cfg.hash(ResourceLock("a")) := 1]
    ensures 1 in s.procs && s.procs[1] == Spec(UpdWrite("a", 1, "y", NewRow(0, "c", 1, "x", 0)))
  {
    Start(cfg);
    s := CreateRow(cfg, Init, "a", 1);
    s := ReadForUpdate(cfg, s, "a", "y");
    s := DropRow(cfg, s, "a", Status(1, "1", ""));
    s := CreateRow(cfg, s, "a", version);
  }

  lemma LandUpdate(cfg: Config, s: State) returns (t: State)
    requires Reachable(cfg, s) && 1 in s.procs && "a" in s.db.rows
    requires s.procs[1] == Spec(UpdWrite("a", 1, "y", NewRow(0, "c", 1, "x", 0)))
    ensures Reachable(cfg, t) && t == Next(cfg, s, Go(1, Yes)) && t.locks == s.locks && t.nextPid == s.nextPid
    ensures t.db == SetSpec(s.db, "a", 2, "y") && t.procs == s.procs[1 := Spec(UpdEvent("a"))]
  {
    t := Take(cfg, s, Go(1, Yes));
  }

  /** An update that lands late may take the new row back to an earlier version. */
  lemma VersionCanFall(cfg: Config) returns (s: State, t: State)
    requires cfg.valid("x") && cfg.valid("y")
    ensures Reachable(cfg, s) && Can(cfg, s, Go(1, Yes)) && t == Next(cfg, s, Go(1, Yes))
    ensures "a" in s.db.rows && "a" in t.db.rows && s.db.rows["a"].inc == t.db.rows["a"].inc
    ensures t.db.rows["a"].version < s.db.rows["a"].version
  {
    s := LateUpdate(cfg, 5);
    t := LandUpdate(cfg, s);
  }

  /** It may change the payload under an unchanged version. */
  lemma PayloadCanChange(cfg: Config) returns (s: State, t: State)
    requires cfg.valid("x") && cfg.valid("y")
    ensures Reachable(cfg, s) && Can(cfg, s, Go(1, Yes)) && t == Next(cfg, s, Go(1, Yes))
    ensures "a" in s.db.rows && "a" in t.db.rows && s.db.rows["a"].inc == t.db.rows["a"].inc
    ensures t.db.rows["a"].version == s.db.rows["a"].version && t.db.rows["a"].payload != s.db.rows["a"].payload
  {
    s := LateUpdate(cfg, 2);
    t := LandUpdate(cfg, s);
  }

  /** Or overtake a report: the report then lands on the row it read, and its status is ahead. */
  lemma StatusCanBeOvertaken(cfg: Config) returns (s: State, t: State)
    requires cfg.valid("x") && cfg.valid("y") && cfg.hash(StatusLock("a")) != cfg.hash(ResourceLock("a"))
    ensures Reachable(cfg, s) && Can(cfg, s, Go(4, Yes)) && t == Next(cfg, s, Go(4, Yes))
    ensures !Lifecycle.Crosses(s, Go(4, Yes), "a")
    ensures "a" in s.db.rows && Lifecycle.StatusBounded(s.db.rows["a"])
    ensures "a" in t.db.rows && !Lifecycle.StatusBounded(t.db.rows["a"])
  {
    s := LateUpdate(cfg, 5);
    s := ReadForReport(cfg, s, "a", Status(5, "1", ""));
    s := LandUpdate(cfg, s);
    t := Take(cfg, s, Go(4, Yes));
  }

  /** A report from its read to its end. */
  lemma ReportRow(cfg: Config, s: State, id: Id, st: Status) returns (t: State)
    requires Reachable(cfg, s) && id in s.db.rows && s.db.rows[id].consumer == "c"
    requires cfg.hash(StatusLock(id)) !in s.locks && s.nextPid !in s.procs
    requires forall key :: key in s.locks ==> s.locks[key] != s.nextPid
    requires Judge(cfg.valid, Some(s.db.rows[id]), Report(st)).Accept?
    ensures After(cfg, s, t, SetStatus(s.db, id, st), s.locks, None)
  {
    t := ReadForReport(cfg, s, id, st);
    t := Take(cfg, t, Go(s.nextPid, Yes));
    t := Take(cfg, t, End(s.nextPid));
  }

  lemma OneBeforeTwo()
    ensures SequenceIds.Compare("1", "") == Ok(true) && SequenceIds.Compare("2", "1") == Ok(true)
  {
    assert SequenceIds.Digits("1"[..0]) == Some(0) && SequenceIds.Digits("2"[..0]) == Some(0);
    assert SequenceIds.Parse("1") == Some(1) && SequenceIds.Parse("2") == Some(2);
  }

  lemma ReportedThenLowered(cfg: Config) returns (s: State)
    requires cfg.valid("x") && cfg.valid("y") && cfg.hash(StatusLock("a")) != cfg.hash(ResourceLock("a"))
    ensures Reachable(cfg, s) && cfg.hash(StatusLock("a")) !in s.locks && s.nextPid == 5
    ensures "a" in s.db.rows && s.db.rows["a"] == Row(1, "c", 2, "y", Some(Status(5, "1", "")), 0, None)
  {
    OneBeforeTwo();
    s := LateUpdate(cfg, 5);
    ReachableIsGood(cfg, s);
    s := ReportRow(cfg, s, "a", Status(5, "1", ""));
    s := LandUpdate(cfg, s);
  }

  /** Once a status is ahead, the next report takes its version back. */
  lemma StatusVersionCanFall(cfg: Config) returns (s: State, t: State)
    requires cfg.valid("x") && cfg.valid("y") && cfg.hash(StatusLock("a")) != cfg.hash(ResourceLock("a"))
    ensures Reachable(cfg, s) && Can(cfg, s, Go(5, Yes)) && t == Next(cfg, s, Go(5, Yes))
    ensures "a" in s.db.rows && "a" in t.db.rows && s.db.rows["a"].inc == t.db.rows["a"].inc
    ensures s.db.rows["a"].status == Some(Status(5, "1", "")) && t.db.rows["a"].status == Some(Status(2, "2", ""))
  {
    OneBeforeTwo();
    s := ReportedThenLowered(cfg);
    s := ReadForReport(cfg, s, "a", Status(2, "2", ""));
    t := Take(cfg, s, Go(5, Yes));
  }

  lemma SaveTooLate(cfg: Config, s: State, event: Event, inc: nat) returns (t: State)
    requires Reachable(cfg, s) && s.db.events == map[0 := event] && s.db.nextEvent == 1
    requires !event.reconciled && Announces(event, "a", inc) && event.createdAt == s.db.clock
    requires "a" in s.db.rows && !s.db.rows["a"].Live() && s.db.rows["a"].inc == inc
    requires DeleteEvent in cfg.handlers && cfg.handlers[DeleteEvent] == 1 && cfg.interval > 0
    requires s.locks == map[] && (forall p :: p in s.procs ==> p < s.nextPid)
    ensures Reachable(cfg, t) && 0 in t.db.events && 1 in t.db.events
    ensures Announces(t.db.events[0], "a", inc) && Announces(t.db.events[1], "a", inc)
    ensures t.db.events[1].createdAt == t.db.events[0].createdAt + 1
  {
    t := SlowAndFast(cfg, s, event);
    t := Take(cfg, t, Tick(1));
    t := Republish(cfg, t, "a");
    t := Take(cfg, t, Go(s.nextPid, Yes));
  }

  /** Two workers of gRPC replicas handle one delete event; the slower one saves its copy after
      the event was purged and republished, and two stored delete events are too close. */
  lemma RevivedEventsCanBeClose(cfg: Config) returns (s: State)
    requires cfg.valid("x") && cfg.interval > 1
    requires DeleteEvent in cfg.handlers && cfg.handlers[DeleteEvent] == 1
    ensures Reachable(cfg, s)
    ensures 0 in s.db.events && Announces(s.db.events[0], "a", 0)
    ensures 1 in s.db.events && Announces(s.db.events[1], "a", 0)
    ensures !Apart(cfg, s.db.events[0].createdAt, s.db.events[1].createdAt)
  {
    Start(cfg);
    s := CreateRow(cfg, Init, "a", 1);
    s := DeleteRow(cfg, s, "a");
    var event := Event("a", DeleteEvent, 0, false, Some(0), false);
    assert s.db.events == map[0 := event];
    s := SaveTooLate(cfg, s, event, 0);
  }

  /** A create request may still be published after the soft delete when the handler's read came
      before it; what never happens is a read after it. */
  lemma PublishCanFollowSoftDelete(cfg: Config) returns (s: State, i: nat, j: nat)
    requires cfg.valid("x") && CreateEvent in cfg.handlers && cfg.handlers[CreateEvent] == 1
    ensures Reachable(cfg, s) && i < j < |s.log|
    ensures Delivery.SoftDeletes(s.log[i], "a", 0) && s.log[j].effect == Publish(CreateEvent, "a")
  {
    Start(cfg);
    s := CreateRow(cfg, Init, "a", 1);
    s := Take(cfg, s, Go(0, Yes));
    s := ReadForHandler(cfg, s, 0);
    i := |s.log| + 2;
    s := SoftDeleteRow(cfg, s, "a");
    j := |s.log|;
    s := Take(cfg, s, Go(1, Yes));
  }

  /** With republishing off a delete that stopped between the soft delete and the event is left
      unannounced by a repeated request, and by everything that may follow. */
  lemma DisabledLeavesSilent(cfg: Config) returns (s: State)
    requires cfg.valid("x") && cfg.interval <= 0
    ensures Reachable(cfg, s)
    ensures "a" in s.db.rows && !s.db.rows["a"].Live() && s.procs == map[2 := Done(Disabled)]
    ensures forall run :: IsRun(cfg, s, run) ==> Throttle.IsSilent(Exec(cfg, s, run).db, "a", 0)
  {
    Start(cfg);
    s := CreateRow(cfg, Init, "a", 1);
    s := Take(cfg, s, End(0));
    s := SoftDeleteRow(cfg, s, "a");
    s := Take(cfg, s, End(1));
    s := AskAgain(cfg, s, "a");
    ReachableIsGood(cfg, s);
    forall run | IsRun(cfg, s, run) ensures Throttle.IsSilent(Exec(cfg, s, run).db, "a", 0) {
      Throttle.DisabledNeverHeals(cfg, s, run, "a", 0);
    }
  }

  /** The identifier is deleted, dropped and created again; the new row is marked, and its delete
      request stops before the event. */
  lemma InterruptedAgain(cfg: Config) returns (s: State)
    requires cfg.valid("x")
    ensures Reachable(cfg, s) && s.db.clock == 0 && s.db.nextInc == 2 && s.locks == map[] && s.nextPid == 5
    ensures s.db.events == map[0 := Event("a", DeleteEvent, 0, false, Some(0), false)] == s.db.issued
    ensures "a" in s.db.rows && s.db.rows["a"] == Row(1, "c", 1, "x", None, 0, Some(0))
  {
    Start(cfg);
    s := CreateRow(cfg, Init, "a", 1);
    s := DeleteRow(cfg, s, "a");
    s := DropRow(cfg, s, "a", Status(1, "1", ""));
    s := CreateRow(cfg, s, "a", 1);
    s := SoftDeleteRow(cfg, s, "a");
    s := Take(cfg, s, End(4));
  }

  /** A repeated request is then throttled by the event of the earlier incarnation: it completes with
      the row marked and its incarnation never announced. The latest event is as old as the mark. */
  lemma ThrottledByEarlierIncarnation(cfg: Config) returns (s: State)
    requires cfg.valid("x") && cfg.interval > 0
    ensures Reachable(cfg, s) && 5 in s.procs && s.procs[5] == Done(Throttled(0))
    ensures "a" in s.db.rows && s.db.rows["a"].deletedAt == Some(0) && s.db.rows["a"].inc == 1
    ensures Throttle.IsSilent(s.db, "a", 1)
  {
    var look := Yes.(latest := Some(0));
    var s0 := InterruptedAgain(cfg);
    s := AskAgain(cfg, s0, "a");
    assert s.db.IsDeleteOf(0, "a");
    assert IsLatestDelete(s.db, "a", Some(0));
    s := Take(cfg, s, Go(5, look));
    s := Take(cfg, s, Go(5, look));
  }

  /** After an ordinary delete request the latest event is as old as the mark too. */
  lemma EqualTimesCanBeOwn(cfg: Config) returns (s: State)
    requires cfg.valid("x")
    ensures Reachable(cfg, s) && IsLatestDelete(s.db, "a", Some(0))
    ensures "a" in s.db.rows && s.db.rows["a"].deletedAt == Some(0)
    ensures Throttle.IsStored(s.db, 0, "a", s.db.rows["a"].inc)
  {
    Start(cfg);
    s := CreateRow(cfg, Init, "a", 1);
    s := DeleteRow(cfg, s, "a");
    assert s.db.IsDeleteOf(0, "a");
  }

  /** A first status with an identifier that is no number is stored, and no report gets in after it. */
  lemma FirstStatusCanStick(valid: string -> bool, row: Row)
    requires row.status.None?
    ensures var stuck := row.(status := Some(Status(row.version, "x", "")));
            && Perform(valid, Some(row), Report(stuck.status.value)) == Some(stuck)
            && forall st :: Perform(valid, Some(stuck), Report(st)) == Some(stuck)
  {
    var stuck := row.(status := Some(Status(row.version, "x", "")));
    assert SequenceIds.Digits("x"[..0]) == Some(0);
    assert SequenceIds.Parse("x").None?;
    forall st ensures Perform(valid, Some(stuck), Report(st)) == Some(stuck) {
      assert !SequenceIds.LetsIn("x");
      Lifecycle.ReportsPossibleIff(valid, stuck);
    }
  }

  lemma StartPass(cfg: Config, s: State) returns (t: State)
    requires Reachable(cfg, s) && cfg.hash(StaleCheckLock) !in s.locks
    ensures After(cfg, s, t, s.db, s.locks[cfg.hash(StaleCheckLock) := s.nextPid],
                  Some(Check(OldRun(s.db.clock))))
  {
    t := Take(cfg, s, Spawn(Check(OldLock)));
    t := Advance(cfg, s, t, Check(OldNow));
    t := Advance(cfg, s, t, Check(OldRun(s.db.clock)));
  }

  lemma DeletedTwice(cfg: Config) returns (s: State)
    requires cfg.valid("x")
    ensures Reachable(cfg, s) && s.db.clock == 0 && s.locks == map[] && s.nextPid == 5
    ensures "a" in s.db.rows && s.db.rows["a"].deletedAt == Some(0)
    ensures s.db.events == map[0 := Event("a", DeleteEvent, 0, false, Some(0), false),
                               1 := Event("a", DeleteEvent, 0, false, Some(1), false)]
  {
    Start(cfg);
    s := CreateRow(cfg, Init, "a", 1);
    s := DeleteRow(cfg, s, "a");
    s := DropRow(cfg, s, "a", Status(1, "1", ""));
    s := CreateRow(cfg, s, "a", 1);
    s := DeleteRow(cfg, s, "a");
  }

  /** Delete events of earlier incarnations add up when the row is not marked before the cutoff: a
      pass that could retire all stale events leaves more than the bound. */
  lemma EarlierIncarnationsAddUp(cfg: Config) returns (s: State)
    requires cfg.valid("x") && cfg.interval > cfg.threshold >= 0
    ensures Reachable(cfg, s) && Can(cfg, s, Go(5, Yes)) && s.procs[5] == Check(OldRun(0))
    ensures "a" in s.db.rows && s.db.rows["a"].deletedAt == Some(0)
    ensures |Throttle.WholeBacklog(Next(cfg, s, Go(5, Yes)).db, "a", 0)| == 2
    ensures cfg.threshold / cfg.interval + 1 == 1
  {
    s := DeletedTwice(cfg);
    s := StartPass(cfg, s);
    NothingStale(s.db, 0 - cfg.threshold);
    Two(Retire(s.db, {}));
    Division.QuotientIsUnique(cfg.threshold, cfg.interval, 0, cfg.threshold);
  }

  lemma NothingStale(db: Db, cutoff: int)
    requires cutoff <= 0
    ensures StaleEvents(db, cutoff) == {} && IsBatch(db, cutoff, {})
  {}

  lemma Two(db: Db)
    requires db.events.Keys == {0, 1} && db.IsDeleteOf(0, "a") && db.IsDeleteOf(1, "a")
    requires !db.events[0].reconciled && !db.events[1].reconciled
    requires db.events[0].createdAt == 0 == db.events[1].createdAt
    ensures |Throttle.WholeBacklog(db, "a", 0)| == 2
  {
    assert Throttle.WholeBacklog(db, "a", 0) == {0, 1};
  }

  /** A delete event that outlives its incarnation makes the gRPC broker publish a delete request for
      the live row created since. */
  lemma LiveRowCanBeDeleted(cfg: Config) returns (s: State, t: State)
    requires cfg.valid("x") && DeleteEvent in cfg.handlers && cfg.handlers[DeleteEvent] == 1
    ensures Reachable(cfg, s) && "a" in s.db.rows && s.db.rows["a"].Live()
    ensures Can(cfg, s, Go(4, Yes)) && t == Next(cfg, s, Go(4, Yes))
    ensures t.log[|s.log|].effect == Publish(DeleteEvent, "a")
  {
    Start(cfg);
    s := CreateRow(cfg, Init, "a", 1);
    s := DeleteRow(cfg, s, "a");
    s := DropRow(cfg, s, "a", Status(1, "1", ""));
    s := CreateRow(cfg, s, "a", 1);
    s := ReadForHandler(cfg, s, 0);
    t := Take(cfg, s, Go(4, Yes));
  }
}
