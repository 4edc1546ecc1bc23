/** One incarnation of a resource row over whole runs: no update is lost, a row marked for
    deletion keeps its spec, and its status only moves forward. */
module Lifecycle {
  import opened Wrappers
  import opened Store
  import opened System
  import opened Discipline
  import opened Incarnations
  import SequenceIds

  // What holds in all runs

  /** How one incarnation may change over any stretch of any run. */
  ghost predicate Endures(r: Row, t: Row)
  {
    && r.inc == t.inc && r.consumer == t.consumer && r.createdAt == t.createdAt
    && (r.deletedAt.Some? ==>
          t.deletedAt == r.deletedAt && t.version == r.version && t.payload == r.payload)
    && (r.status.Some? ==>
          && t.status.Some?
          && (r.status == t.status || SequenceIds.Newer(t.status.value.seqId, r.status.value.seqId)))
  }

  /** The later row of the identifier is the earlier one, or another incarnation. */
  ghost predicate Continues(a: Db, b: Db, id: Id)
  {
    && a.nextInc <= b.nextInc
    && (id in b.rows ==> (id in a.rows && Endures(a.rows[id], b.rows[id])) || a.nextInc <= b.rows[id].inc)
  }

  lemma EnduresTransitive(r: Row, t: Row, u: Row)
    requires Endures(r, t) && Endures(t, u)
    ensures Endures(r, u)
  {
    if r.status.Some? {
      SequenceIds.NewerIsStrictOrder(u.status.value.seqId, t.status.value.seqId, r.status.value.seqId);
    }
  }

  lemma ContinuesTransitive(a: Db, b: Db, c: Db, id: Id)
    requires Continues(a, b, id) && Continues(b, c, id)
    ensures Continues(a, c, id)
  {
    if id in a.rows && id in b.rows && id in c.rows
       && Endures(a.rows[id], b.rows[id]) && Endures(b.rows[id], c.rows[id]) {
      EnduresTransitive(a.rows[id], b.rows[id], c.rows[id]);
    }
  }

  /** A status is written over an older one only, also when it lands on another incarnation. */
  lemma ReportIsNewer(cfg: Config, db: Db, r: Reporter)
    requires r.StaWrite? && ReporterLocal(cfg, db, r) && ProcSound(db, Feedback(r))
    requires r.id in db.rows && db.rows[r.id].status.Some?
    ensures SequenceIds.Newer(r.status.seqId, db.rows[r.id].status.value.seqId)
  {}

  lemma ActEndures(db: Db, e: Effect, id: Id)
    requires RowsOk(db) && EffectSound(db, e)
    requires e.WriteStatus? && e.id in db.rows && db.rows[e.id].status.Some? ==>
               SequenceIds.Newer(e.status.seqId, db.rows[e.id].status.value.seqId)
    ensures Continues(db, Act(db, e), id)
  {}

  lemma PlanIsNewer(cfg: Config, s: State, q: Proc, c: Choice)
    requires Local(cfg, s.db, q) && ProcSound(s.db, q)
    ensures var e := Plan(cfg, s, q, c).0;
            e.WriteStatus? && e.id in s.db.rows && s.db.rows[e.id].status.Some? ==>
              SequenceIds.Newer(e.status.seqId, s.db.rows[e.id].status.value.seqId)
  {
    if q.Feedback? && q.r.StaWrite? && q.r.id in s.db.rows && s.db.rows[q.r.id].status.Some? {
      ReportIsNewer(cfg, s.db, q.r);
    }
  }

  lemma StepEndures(cfg: Config, s: State, a: Action, id: Id)
    requires Sound(cfg, s) && Can(cfg, s, a)
    ensures Continues(s.db, Next(cfg, s, a).db, id)
  {
    if a.Go? {
      PlanSound(cfg, s, s.procs[a.p], a.choice);
      PlanIsNewer(cfg, s, s.procs[a.p], a.choice);
      ActEndures(s.db, Plan(cfg, s, s.procs[a.p], a.choice).0, id);
    }
  }

  /** Over every run each incarnation endures: once marked it keeps version, payload and mark, and
      the statuses stored for it strictly advance in sequence. */
  lemma {:induction false} RunsEndure(cfg: Config, s: State, run: seq<Action>, id: Id)
    requires Sound(cfg, s) && IsRun(cfg, s, run)
    ensures Continues(s.db, Exec(cfg, s, run).db, id)
    decreases run
  {
    if run != [] {
      var t := Next(cfg, s, run[0]);
      StepEndures(cfg, s, run[0], id);
      StepKeepsSound(cfg, s, run[0]);
      RunsEndure(cfg, t, run[1..], id);
      ContinuesTransitive(s.db, t.db, Exec(cfg, s, run).db, id);
    }
  }

  /** The same between any two moments of a run from empty tables. */
  lemma RowHistory(cfg: Config, s: State, after: seq<Action>, id: Id)
    requires Reachable(cfg, s) && IsRun(cfg, s, after)
    ensures var db' := Exec(cfg, s, after).db;
            id in s.db.rows && id in db'.rows && s.db.rows[id].inc == db'.rows[id].inc ==>
              Endures(s.db.rows[id], db'.rows[id])
  {
    ReachableIsSound(cfg, s);
    RunsEndure(cfg, s, after, id);
  }

  lemma ActBears(db: Db, e: Effect, id: Id)
    requires RowsOk(db) && id in Act(db, e).rows
    requires id in db.rows ==> db.rows[id].inc != Act(db, e).rows[id].inc
    ensures e.Insert? && e.id == id
  {}

  /** An incarnation begins with an accepted creation, carrying the clock of its insert. */
  lemma Born(cfg: Config, s: State, a: Action, id: Id)
    requires RowsOk(s.db) && Can(cfg, s, a) && id in Next(cfg, s, a).db.rows
    requires id in s.db.rows ==> s.db.rows[id].inc != Next(cfg, s, a).db.rows[id].inc
    ensures a.Go? && s.procs[a.p].Spec? && s.procs[a.p].w.CreRow? && s.procs[a.p].w.id == id
    ensures var w, row := s.procs[a.p].w, Next(cfg, s, a).db.rows[id];
            && id !in s.db.rows && cfg.valid(w.payload) && row.inc == s.db.nextInc
            && row.createdAt == s.db.clock && row.status == None && row.deletedAt == None
            && row.consumer == w.consumer && row.payload == w.payload
            && row.version == if w.version != 0 then w.version else 1
  {
    ActBears(s.db, Plan(cfg, s, s.procs[a.p], a.choice).0, id);
  }

  // Validation

  ghost predicate PayloadsValid(cfg: Config, db: Db)
  {
    forall id :: id in db.rows ==> cfg.valid(db.rows[id].payload)
  }

  /** A payload is validated before it is inserted, and before it is written over another one. */
  lemma PlanWritesValid(cfg: Config, s: State, q: Proc, c: Choice)
    requires Local(cfg, s.db, q)
    ensures var e := Plan(cfg, s, q, c).0; (e.Insert? || e.WriteSpec?) ==> cfg.valid(e.payload)
  {}

  lemma ActKeepsValid(cfg: Config, db: Db, e: Effect)
    requires PayloadsValid(cfg, db) && ((e.Insert? || e.WriteSpec?) ==> cfg.valid(e.payload))
    ensures PayloadsValid(cfg, Act(db, e))
  {}

  lemma {:induction false} RunKeepsValid(cfg: Config, s: State, run: seq<Action>)
    requires Good(cfg, s) && PayloadsValid(cfg, s.db) && IsRun(cfg, s, run)
    ensures PayloadsValid(cfg, Exec(cfg, s, run).db)
    decreases run
  {
    if run != [] {
      var a := run[0];
      if a.Go? {
        PlanWritesValid(cfg, s, s.procs[a.p], a.choice);
        ActKeepsValid(cfg, s.db, Plan(cfg, s, s.procs[a.p], a.choice).0);
      }
      StepKeepsGood(cfg, s, a);
      RunKeepsValid(cfg, Next(cfg, s, a), run[1..]);
    }
  }

  /** In every reachable state every stored payload has passed the validation, although it was checked
      at another moment than it was written. */
  lemma StoredPayloadsAreValid(cfg: Config, run: seq<Action>, id: Id)
    requires IsRun(cfg, Init, run) && id in Exec(cfg, Init, run).db.rows
    ensures cfg.valid(Exec(cfg, Init, run).db.rows[id].payload)
  {
    RunKeepsValid(cfg, Init, run);
  }

  /** A resource that has reported, or is marked for deletion, is not found undelivered again. */
  lemma NeverUndeliveredAgain(cfg: Config, s: State, after: seq<Action>,
                              id: Id, consumers: set<string>, cutoff: int)
    requires Reachable(cfg, s) && IsRun(cfg, s, after)
    requires id in s.db.rows && (s.db.rows[id].status.Some? || s.db.rows[id].deletedAt.Some?)
    ensures var db' := Exec(cfg, s, after).db;
            id in db'.rows && db'.rows[id].inc == s.db.rows[id].inc ==>
              !IsUndelivered(db', consumers, cutoff, id)
  {
    RowHistory(cfg, s, after, id);
  }

  /** A row with a status can still take a report if and only if its identifier lets one in; the
      first identifier is stored without being parsed. */
  lemma ReportsPossibleIff(valid: string -> bool, row: Row)
    requires row.status.Some?
    ensures (exists st :: Judge(valid, Some(row), Report(st)).Accept?) <==>
            SequenceIds.LetsIn(row.status.value.seqId)
  {
    var stored := row.status.value.seqId;
    SequenceIds.LetsInIff(stored);
    if SequenceIds.LetsIn(stored) {
      var later :| SequenceIds.Newer(later, stored);
      SequenceIds.NewerIsStrictOrder(later, stored, stored);
      assert Judge(valid, Some(row), Report(Status(row.version, later, ""))).Accept?;
    }
    forall st ensures Judge(valid, Some(row), Report(st)).Accept? ==> SequenceIds.Newer(st.seqId, stored) {}
  }

  /** One that lets none in stays for good. */
  lemma StuckStatusStays(cfg: Config, s: State, after: seq<Action>, id: Id)
    requires Reachable(cfg, s) && IsRun(cfg, s, after)
    requires id in s.db.rows && s.db.rows[id].status.Some?
    requires !SequenceIds.LetsIn(s.db.rows[id].status.value.seqId)
    ensures var db' := Exec(cfg, s, after).db;
            id in db'.rows && db'.rows[id].inc == s.db.rows[id].inc ==> db'.rows[id].status == s.db.rows[id].status
  {
    RowHistory(cfg, s, after, id);
    SequenceIds.LetsInIff(s.db.rows[id].status.value.seqId);
  }

  // What needs that no write lands on another incarnation than its process read

  /** The step writes to another incarnation of `id` than the one its process read: the row was
      hard deleted and created again in between. */
  predicate Crosses(s: State, a: Action, id: Id)
  {
    a.Go? && a.p in s.procs && id in s.db.rows &&
    match s.procs[a.p]
    case Spec(w) => w.UpdWrite? && w.id == id && s.db.rows[id].inc != w.found.inc
    case Feedback(r) => r.StaWrite? && r.id == id && s.db.rows[id].inc != r.found.inc
    case _ => false
  }

  ghost predicate IsCalm(cfg: Config, s: State, run: seq<Action>, id: Id)
    decreases run
  {
    run == [] || (!Crosses(s, run[0], id) && IsCalm(cfg, Next(cfg, s, run[0]), run[1..], id))
  }

  /** The stored status never names a later version than the row has. */
  predicate StatusBounded(row: Row) { row.status.Some? ==> row.status.value.version <= row.version }

  ghost predicate CalmProc(db: Db, q: Proc, id: Id)
  {
    q.Feedback? && q.r.StaWrite? && q.r.id == id ==>
      && StatusBounded(q.r.found)
      && (id in db.rows && db.rows[id].inc == q.r.found.inc ==> q.r.found.version <= db.rows[id].version)
  }

  ghost predicate Calm(s: State, id: Id)
  {
    && (id in s.db.rows ==> StatusBounded(s.db.rows[id]))
    && (forall p :: p in s.procs ==> CalmProc(s.db, s.procs[p], id))
  }

  /** How one incarnation may change over a calm stretch. */
  ghost predicate Evolves(r: Row, t: Row)
  {
    && Endures(r, t)
    && r.version <= t.version && (r.version == t.version ==> r.payload == t.payload)
    && (r.status.Some? && t.status.Some? ==> r.status.value.version <= t.status.value.version)
  }

  ghost predicate Later(a: Db, b: Db, id: Id)
  {
    && a.nextInc <= b.nextInc
    && (id in b.rows ==> (id in a.rows && Evolves(a.rows[id], b.rows[id])) || a.nextInc <= b.rows[id].inc)
  }

  lemma LaterTransitive(a: Db, b: Db, c: Db, id: Id)
    requires Later(a, b, id) && Later(b, c, id)
    ensures Later(a, c, id)
  {
    if id in a.rows && id in b.rows && id in c.rows
       && Evolves(a.rows[id], b.rows[id]) && Evolves(b.rows[id], c.rows[id]) {
      EnduresTransitive(a.rows[id], b.rows[id], c.rows[id]);
    }
  }

  /** What a calm process guarantees of the columns it writes. */
  ghost predicate CalmEffect(db: Db, e: Effect, id: Id)
  {
    match e
    case WriteSpec(i, version, _) => i == id && id in db.rows ==> version == db.rows[id].version + 1
    case WriteStatus(i, status) =>
      i == id && id in db.rows ==>
        && status.version <= db.rows[id].version
        && (db.rows[id].status.Some? ==> db.rows[id].status.value.version <= status.version)
    case _ => true
  }

  lemma PlanIsCalm(cfg: Config, s: State, p: Pid, c: Choice, id: Id)
    requires Can(cfg, s, Go(p, c)) && !Crosses(s, Go(p, c), id)
    requires Local(cfg, s.db, s.procs[p]) && CalmProc(s.db, s.procs[p], id)
    ensures CalmEffect(s.db, Plan(cfg, s, s.procs[p], c).0, id)
  {}

  lemma ActEvolves(db: Db, e: Effect, id: Id)
    requires Continues(db, Act(db, e), id) && RowsOk(db) && CalmEffect(db, e, id)
    requires id in db.rows ==> StatusBounded(db.rows[id])
    ensures Later(db, Act(db, e), id)
    ensures id in Act(db, e).rows ==> StatusBounded(Act(db, e).rows[id])
  {}

  lemma StepEvolves(cfg: Config, s: State, a: Action, id: Id)
    requires Sound(cfg, s) && Calm(s, id) && Can(cfg, s, a) && !Crosses(s, a, id)
    ensures var db' := Next(cfg, s, a).db;
            Later(s.db, db', id) && (id in db'.rows ==> StatusBounded(db'.rows[id]))
  {
    StepEndures(cfg, s, a, id);
    if a.Go? {
      PlanIsCalm(cfg, s, a.p, a.choice, id);
      ActEvolves(s.db, Plan(cfg, s, s.procs[a.p], a.choice).0, id);
    }
  }

  lemma StillCalm(cfg: Config, db: Db, db': Db, q: Proc, id: Id)
    requires Local(cfg, db, q) && CalmProc(db, q, id) && Later(db, db', id)
    ensures CalmProc(db', q, id)
  {}

  lemma PlanKeepsCalmProc(cfg: Config, s: State, q: Proc, c: Choice, id: Id)
    requires Calm(s, id) && CalmProc(s.db, q, id)
    ensures var (e, next) := Plan(cfg, s, q, c); CalmProc(Act(s.db, e), next, id)
  {}

  lemma StepKeepsCalm(cfg: Config, s: State, a: Action, id: Id)
    requires Sound(cfg, s) && Calm(s, id) && Can(cfg, s, a) && !Crosses(s, a, id)
    ensures Calm(Next(cfg, s, a), id) && Later(s.db, Next(cfg, s, a).db, id)
  {
    StepEvolves(cfg, s, a, id);
    var s' := Next(cfg, s, a);
    if a.Go? { PlanKeepsCalmProc(cfg, s, s.procs[a.p], a.choice, id); }
    forall p | p in s'.procs
      ensures CalmProc(s'.db, s'.procs[p], id)
    {
      if p in s.procs && s.procs[p] == s'.procs[p] { StillCalm(cfg, s.db, s'.db, s.procs[p], id); }
    }
  }

  /** Over every run that is calm for the identifier each of its incarnations evolves: its version
      never falls and changes with its payload, and the versions of its statuses do not fall back.
      No status is ahead of its row. */
  lemma {:induction false} CalmRunsEvolve(cfg: Config, s: State, run: seq<Action>, id: Id)
    requires Sound(cfg, s) && Calm(s, id) && IsRun(cfg, s, run) && IsCalm(cfg, s, run, id)
    ensures Calm(Exec(cfg, s, run), id) && Later(s.db, Exec(cfg, s, run).db, id)
    decreases run
  {
    if run != [] {
      var t := Next(cfg, s, run[0]);
      StepKeepsSound(cfg, s, run[0]);
      StepKeepsCalm(cfg, s, run[0], id);
      CalmRunsEvolve(cfg, t, run[1..], id);
      LaterTransitive(s.db, t.db, Exec(cfg, s, run).db, id);
    }
  }

  // Exactly which steps spoil that

  predicate WritesSpec(s: State, a: Action, id: Id)
  {
    a.Go? && a.p in s.procs && s.procs[a.p].Spec? && s.procs[a.p].w.UpdWrite? && s.procs[a.p].w.id == id
  }

  predicate WritesStatus(s: State, a: Action, id: Id)
  {
    a.Go? && a.p in s.procs && s.procs[a.p].Feedback? && s.procs[a.p].r.StaWrite? && s.procs[a.p].r.id == id
  }

  lemma ActRow(db: Db, e: Effect, id: Id)
    requires id in db.rows && (e.Insert? ==> e.id !in db.rows)
    ensures id in Act(db, e).rows <==> e != Remove(id)
    ensures id in Act(db, e).rows ==>
              var r, t := db.rows[id], Act(db, e).rows[id];
              && t.inc == r.inc
              && (if e.WriteSpec? && e.id == id then t.version == e.version && t.payload == e.payload
                  else t.version == r.version && t.payload == r.payload)
              && t.status == (if e.WriteStatus? && e.id == id then Some(e.status) else r.status)
  {}

  lemma PlanWrites(cfg: Config, s: State, p: Pid, c: Choice, id: Id)
    requires p in s.procs
    ensures var e := Plan(cfg, s, s.procs[p], c).0;
            && (e.WriteSpec? && e.id == id <==> WritesSpec(s, Go(p, c), id))
            && (WritesSpec(s, Go(p, c), id) ==>
                  e == WriteSpec(id, s.procs[p].w.found.version + 1, s.procs[p].w.payload))
            && (e.WriteStatus? && e.id == id <==> WritesStatus(s, Go(p, c), id))
            && (WritesStatus(s, Go(p, c), id) ==> e == WriteStatus(id, s.procs[p].r.status))
            && (e.Insert? ==> e.id !in s.db.rows)
  {}

  /** The columns of the row after a step. */
  lemma RowAfter(cfg: Config, s: State, a: Action, id: Id)
    requires Sound(cfg, s) && Can(cfg, s, a) && id in s.db.rows
    ensures WritesSpec(s, a, id) || WritesStatus(s, a, id) ==> id in Next(cfg, s, a).db.rows
    ensures id in Next(cfg, s, a).db.rows ==>
              var r, t := s.db.rows[id], Next(cfg, s, a).db.rows[id];
              && (if WritesSpec(s, a, id) then
                    t.version == s.procs[a.p].w.want + 1 && t.payload == s.procs[a.p].w.payload
                  else t.version == r.version && t.payload == r.payload)
              && (if WritesStatus(s, a, id) then
                    && t.status == Some(s.procs[a.p].r.status)
                    && t.status.value.version == s.procs[a.p].r.found.version
                  else t.status == r.status)
  {
    if a.Go? {
      PlanWrites(cfg, s, a.p, a.choice, id);
      ActRow(s.db, Plan(cfg, s, s.procs[a.p], a.choice).0, id);
      assert Local(cfg, s.db, s.procs[a.p]);
    }
  }

  /** A created row has no status. */
  lemma CreatedBare(db: Db, e: Effect, id: Id)
    requires id !in db.rows && id in Act(db, e).rows
    ensures Act(db, e).rows[id].status.None?
  {}

  /** An update that crosses meets a status of a later version than it writes, or a report is of a
      later version than its row has, which it may have read before an update crossed. */
  predicate Overruns(s: State, a: Action, id: Id)
  {
    && id in s.db.rows
    && ((WritesSpec(s, a, id) && Crosses(s, a, id) && s.db.rows[id].status.Some?
         && s.procs[a.p].w.want + 1 < s.db.rows[id].status.value.version)
        || (WritesStatus(s, a, id) && s.db.rows[id].version < s.procs[a.p].r.found.version))
  }

  ghost predicate IsBounded(db: Db, id: Id) { id in db.rows ==> StatusBounded(db.rows[id]) }

  /** A step puts a status ahead of its row if and only if it overruns. */
  lemma StaysBoundedIff(cfg: Config, s: State, a: Action, id: Id)
    requires Sound(cfg, s) && Can(cfg, s, a) && IsBounded(s.db, id)
    ensures IsBounded(Next(cfg, s, a).db, id) <==> !Overruns(s, a, id)
  {
    if id in s.db.rows {
      RowAfter(cfg, s, a, id);
      if WritesSpec(s, a, id) { assert Local(cfg, s.db, s.procs[a.p]); }
    } else if a.Go? && id in Next(cfg, s, a).db.rows {
      CreatedBare(s.db, Plan(cfg, s, s.procs[a.p], a.choice).0, id);
    }
  }

  ghost predicate AlwaysBounded(cfg: Config, s: State, run: seq<Action>, id: Id)
    decreases run
  {
    IsBounded(s.db, id) && (run == [] || AlwaysBounded(cfg, Next(cfg, s, run[0]), run[1..], id))
  }

  ghost predicate NeverOverruns(cfg: Config, s: State, run: seq<Action>, id: Id)
    decreases run
  {
    run == [] || (!Overruns(s, run[0], id) && NeverOverruns(cfg, Next(cfg, s, run[0]), run[1..], id))
  }

  /** No status is ahead of its row all along a run if and only if no step of it overruns. */
  lemma {:induction false} AlwaysBoundedIff(cfg: Config, s: State, run: seq<Action>, id: Id)
    requires Sound(cfg, s) && IsBounded(s.db, id) && IsRun(cfg, s, run)
    ensures AlwaysBounded(cfg, s, run, id) <==> NeverOverruns(cfg, s, run, id)
    decreases run
  {
    if run != [] {
      var t := Next(cfg, s, run[0]);
      StaysBoundedIff(cfg, s, run[0], id);
      StepKeepsSound(cfg, s, run[0]);
      if IsBounded(t.db, id) { AlwaysBoundedIff(cfg, t, run[1..], id); }
    }
  }

  /** The version of an incarnation falls if and only if an update that crosses writes an earlier one. */
  lemma VersionKeptIff(cfg: Config, s: State, a: Action, id: Id)
    requires Sound(cfg, s) && Can(cfg, s, a) && id in s.db.rows
    ensures var db' := Next(cfg, s, a).db;
            (id in db'.rows ==> s.db.rows[id].version <= db'.rows[id].version) <==>
            !(Crosses(s, a, id) && WritesSpec(s, a, id) && s.procs[a.p].w.want + 1 < s.db.rows[id].version)
  {
    RowAfter(cfg, s, a, id);
    if WritesSpec(s, a, id) { assert Local(cfg, s.db, s.procs[a.p]); }
  }

  /** Its payload changes under an unchanged version if and only if an update that crosses writes
      that version with another payload. */
  lemma PayloadKeptIff(cfg: Config, s: State, a: Action, id: Id)
    requires Sound(cfg, s) && Can(cfg, s, a) && id in s.db.rows
    ensures var db' := Next(cfg, s, a).db;
            (id in db'.rows && db'.rows[id].version == s.db.rows[id].version ==>
               db'.rows[id].payload == s.db.rows[id].payload) <==>
            !(Crosses(s, a, id) && WritesSpec(s, a, id) && s.procs[a.p].w.want + 1 == s.db.rows[id].version
              && s.procs[a.p].w.payload != s.db.rows[id].payload)
  {
    RowAfter(cfg, s, a, id);
    if WritesSpec(s, a, id) { assert Local(cfg, s.db, s.procs[a.p]); }
  }

  /** The version of its status falls if and only if a report replaces a status that was ahead of
      the row it read. */
  lemma StatusVersionKeptIff(cfg: Config, s: State, a: Action, id: Id)
    requires Sound(cfg, s) && Can(cfg, s, a) && id in s.db.rows && s.db.rows[id].status.Some?
    ensures var db' := Next(cfg, s, a).db;
            (id in db'.rows ==>
               && db'.rows[id].status.Some?
               && s.db.rows[id].status.value.version <= db'.rows[id].status.value.version) <==>
            !(WritesStatus(s, a, id) && !StatusBounded(s.procs[a.p].r.found))
  {
    RowAfter(cfg, s, a, id);
    if WritesStatus(s, a, id) {
      assert Local(cfg, s.db, s.procs[a.p]) && ProcSound(s.db, s.procs[a.p]);
    }
  }

  /** One of these three. */
  predicate Strays(s: State, a: Action, id: Id)
  {
    && id in s.db.rows
    && ((Crosses(s, a, id) && WritesSpec(s, a, id)
         && (s.procs[a.p].w.want + 1 < s.db.rows[id].version
             || (s.procs[a.p].w.want + 1 == s.db.rows[id].version
                 && s.procs[a.p].w.payload != s.db.rows[id].payload)))
        || (WritesStatus(s, a, id) && s.db.rows[id].status.Some? && !StatusBounded(s.procs[a.p].r.found)))
  }

  /** A step evolves the row if and only if it does not stray. */
  lemma EvolvesIff(cfg: Config, s: State, a: Action, id: Id)
    requires Sound(cfg, s) && Can(cfg, s, a)
    ensures Later(s.db, Next(cfg, s, a).db, id) <==> !Strays(s, a, id)
  {
    StepEndures(cfg, s, a, id);
    if id in s.db.rows {
      VersionKeptIff(cfg, s, a, id);
      PayloadKeptIff(cfg, s, a, id);
      if s.db.rows[id].status.Some? { StatusVersionKeptIff(cfg, s, a, id); }
      if id in Next(cfg, s, a).db.rows { SameIncarnation(cfg, s, a, id); }
    }
  }

  lemma SameIncarnation(cfg: Config, s: State, a: Action, id: Id)
    requires Sound(cfg, s) && Can(cfg, s, a) && id in s.db.rows && id in Next(cfg, s, a).db.rows
    ensures Next(cfg, s, a).db.rows[id].inc == s.db.rows[id].inc < s.db.nextInc
  {
    if a.Go? { PlanKeepsInc(cfg, s, a.p, a.choice, id); }
  }

  ghost predicate AlwaysEvolves(cfg: Config, s: State, run: seq<Action>, id: Id)
    decreases run
  {
    run == [] || (Later(s.db, Next(cfg, s, run[0]).db, id) && AlwaysEvolves(cfg, Next(cfg, s, run[0]), run[1..], id))
  }

  ghost predicate NeverStrays(cfg: Config, s: State, run: seq<Action>, id: Id)
    decreases run
  {
    run == [] || (!Strays(s, run[0], id) && NeverStrays(cfg, Next(cfg, s, run[0]), run[1..], id))
  }

  /** The row evolves all along a run if and only if no step of it strays. */
  lemma {:induction false} AlwaysEvolvesIff(cfg: Config, s: State, run: seq<Action>, id: Id)
    requires Sound(cfg, s) && IsRun(cfg, s, run)
    ensures AlwaysEvolves(cfg, s, run, id) <==> NeverStrays(cfg, s, run, id)
    decreases run
  {
    if run != [] {
      EvolvesIff(cfg, s, run[0], id);
      StepKeepsSound(cfg, s, run[0]);
      AlwaysEvolvesIff(cfg, Next(cfg, s, run[0]), run[1..], id);
    }
  }

  // When a run is calm

  /** The process has read the row and will write it. */
  predicate Awaits(q: Proc, id: Id)
  {
    (q.Spec? && q.w.UpdWrite? && q.w.id == id) || (q.Feedback? && q.r.StaWrite? && q.r.id == id)
  }

  function ReadInc(q: Proc): nat
    requires exists id :: Awaits(q, id)
  {
    if q.Spec? then q.w.found.inc else q.r.found.inc
  }

  /** Whoever has read the row would write to the incarnation it read. */
  ghost predicate IsMatched(s: State, id: Id)
  {
    forall p :: p in s.procs && Awaits(s.procs[p], id) && id in s.db.rows ==>
      s.db.rows[id].inc == ReadInc(s.procs[p])
  }

  /** The step creates the row. */
  predicate Creates(cfg: Config, s: State, a: Action, id: Id)
  {
    && a.Go? && a.p in s.procs && s.procs[a.p].Spec? && s.procs[a.p].w.CreRow? && s.procs[a.p].w.id == id
    && cfg.valid(s.procs[a.p].w.payload) && id !in s.db.rows
  }

  predicate CreatesUnder(cfg: Config, s: State, a: Action, id: Id)
  {
    Creates(cfg, s, a, id) && exists p :: p in s.procs && Awaits(s.procs[p], id)
  }

  /** A process comes to await a write by reading the row. */
  lemma PlanAwaits(cfg: Config, s: State, q: Proc, c: Choice, id: Id)
    ensures var (e, next) := Plan(cfg, s, q, c);
            Awaits(next, id) ==> e == Nothing && id in s.db.rows && ReadInc(next) == s.db.rows[id].inc
  {}

  /** Only a create gives an identifier another incarnation. */
  lemma PlanKeepsInc(cfg: Config, s: State, p: Pid, c: Choice, id: Id)
    requires p in s.procs
    ensures var db' := Act(s.db, Plan(cfg, s, s.procs[p], c).0);
            id in db'.rows ==>
              if Creates(cfg, s, Go(p, c), id) then db'.rows[id].inc == s.db.nextInc
              else id in s.db.rows && db'.rows[id].inc == s.db.rows[id].inc
  {}

  /** A step leaves somebody about to write to another incarnation if and only if it creates the row
      while somebody who has read it has yet to write. */
  lemma StaysMatchedIff(cfg: Config, s: State, a: Action, id: Id)
    requires Good(cfg, s) && Can(cfg, s, a) && IsMatched(s, id)
    ensures IsMatched(Next(cfg, s, a), id) <==> !CreatesUnder(cfg, s, a, id)
  {
    var s' := Next(cfg, s, a);
    if CreatesUnder(cfg, s, a, id) {
      var p :| p in s.procs && Awaits(s.procs[p], id);
      assert p in s'.procs && s'.procs[p] == s.procs[p] && Local(cfg, s.db, s.procs[p]);
    } else {
      forall p | p in s'.procs && Awaits(s'.procs[p], id) && id in s'.db.rows
        ensures s'.db.rows[id].inc == ReadInc(s'.procs[p])
      {
        AwaitsSince(cfg, s, a, id, p);
      }
    }
  }

  lemma AwaitsSince(cfg: Config, s: State, a: Action, id: Id, p: Pid)
    requires Can(cfg, s, a) && IsMatched(s, id) && !CreatesUnder(cfg, s, a, id)
    requires var s' := Next(cfg, s, a); p in s'.procs && Awaits(s'.procs[p], id) && id in s'.db.rows
    ensures var s' := Next(cfg, s, a); s'.db.rows[id].inc == ReadInc(s'.procs[p])
  {
    if a.Go? {
      PlanAwaits(cfg, s, s.procs[a.p], a.choice, id);
      PlanKeepsInc(cfg, s, a.p, a.choice, id);
    }
  }

  ghost predicate IsUndisturbed(cfg: Config, s: State, run: seq<Action>, id: Id)
    decreases run
  {
    run == [] || (!CreatesUnder(cfg, s, run[0], id) && IsUndisturbed(cfg, Next(cfg, s, run[0]), run[1..], id))
  }

  /** A run is calm for an identifier that is never created while somebody who has read its row has
      yet to write it. */
  lemma {:induction false} UndisturbedRunsAreCalm(cfg: Config, s: State, run: seq<Action>, id: Id)
    requires Good(cfg, s) && IsMatched(s, id) && IsRun(cfg, s, run) && IsUndisturbed(cfg, s, run, id)
    ensures IsCalm(cfg, s, run, id)
    decreases run
  {
    if run != [] {
      assert Crosses(s, run[0], id) ==> Awaits(s.procs[run[0].p], id);
      StaysMatchedIff(cfg, s, run[0], id);
      StepKeepsGood(cfg, s, run[0]);
      UndisturbedRunsAreCalm(cfg, Next(cfg, s, run[0]), run[1..], id);
    }
  }

  /** The row was created at some time. */
  ghost predicate WasCreated(log: seq<Entry>, id: Id)
  {
    exists i :: 0 <= i < |log| && log[i].effect.Insert? && log[i].effect.id == id
  }

  ghost predicate IsNeverReused(cfg: Config, s: State, run: seq<Action>, id: Id)
    decreases run
  {
    run == [] || (!(Creates(cfg, s, run[0], id) && WasCreated(s.log, id))
                  && IsNeverReused(cfg, Next(cfg, s, run[0]), run[1..], id))
  }

  ghost predicate IsKnown(s: State, id: Id)
  {
    && (id in s.db.rows ==> WasCreated(s.log, id))
    && (forall p :: p in s.procs && Awaits(s.procs[p], id) ==> WasCreated(s.log, id))
  }

  lemma CreatedStays(log: seq<Entry>, entry: Entry, id: Id)
    ensures WasCreated(log, id) || (entry.effect.Insert? && entry.effect.id == id) ==> WasCreated(log + [entry], id)
  {
    if WasCreated(log, id) {
      var i :| 0 <= i < |log| && log[i].effect.Insert? && log[i].effect.id == id;
      assert (log + [entry])[i] == log[i];
    } else if entry.effect.Insert? {
      assert (log + [entry])[|log|] == entry;
    }
  }

  lemma StepKeepsKnown(cfg: Config, s: State, a: Action, id: Id)
    requires Can(cfg, s, a) && IsKnown(s, id)
    ensures IsKnown(Next(cfg, s, a), id)
  {
    if a.Go? {
      var (e, next) := Plan(cfg, s, s.procs[a.p], a.choice);
      CreatedStays(s.log, Record(s.db, a.p, s.procs[a.p], e), id);
      PlanAwaits(cfg, s, s.procs[a.p], a.choice, id);
      PlanKeepsInc(cfg, s, a.p, a.choice, id);
    }
  }

  /** In particular, an identifier that is never used again. */
  lemma {:induction false} NeverReusedIsUndisturbed(cfg: Config, s: State, run: seq<Action>, id: Id)
    requires IsKnown(s, id) && IsRun(cfg, s, run) && IsNeverReused(cfg, s, run, id)
    ensures IsUndisturbed(cfg, s, run, id)
    decreases run
  {
    if run != [] {
      StepKeepsKnown(cfg, s, run[0], id);
      NeverReusedIsUndisturbed(cfg, Next(cfg, s, run[0]), run[1..], id);
    }
  }

  /** So a status is never ahead of its row for an identifier that is never used again. */
  lemma NeverReusedIsBounded(cfg: Config, run: seq<Action>, id: Id)
    requires IsRun(cfg, Init, run) && IsNeverReused(cfg, Init, run, id)
    ensures var db := Exec(cfg, Init, run).db; id in db.rows ==> StatusBounded(db.rows[id])
  {
    NeverReusedIsUndisturbed(cfg, Init, run, id);
    UndisturbedRunsAreCalm(cfg, Init, run, id);
    CalmRunsEvolve(cfg, Init, run, id);
  }

  // Which updates succeeded

  predicate IsUpdateOf(entry: Entry, id: Id, inc: nat)
  {
    entry.at.Spec? && entry.at.w.UpdWrite? && entry.at.w.id == id && entry.hit == Some(inc)
  }

  /** The versions named by the successful payload changes of one incarnation, in order. */
  function Wants(log: seq<Entry>, id: Id, inc: nat): seq<int>
  {
    if log == [] then []
    else
      var earlier := Wants(log[..|log| - 1], id, inc);
      var last := log[|log| - 1];
      if IsUpdateOf(last, id, inc) then earlier + [last.at.w.want] else earlier
  }

  ghost predicate Consecutive(v: seq<int>) { forall i :: 0 <= i < |v| - 1 ==> v[i + 1] == v[i] + 1 }

  ghost predicate UpdatesCounted(log: seq<Entry>, db: Db, id: Id, inc: nat)
  {
    var v := Wants(log, id, inc);
    && Consecutive(v)
    && (db.nextInc <= inc ==> v == [])
    && (id in db.rows && db.rows[id].inc == inc && v != [] ==>
          db.rows[id].version == v[|v| - 1] + 1)
  }

  lemma OneMoreEntry(log: seq<Entry>, entry: Entry, id: Id, inc: nat)
    ensures Wants(log + [entry], id, inc) ==
            Wants(log, id, inc) + if IsUpdateOf(entry, id, inc) then [entry.at.w.want] else []
  {
    assert (log + [entry])[..|log|] == log;
  }

  /** An update that will land on another incarnation is the first update of that one. */
  ghost predicate IsFirst(s: State, q: Proc, id: Id, inc: nat)
  {
    q.Spec? && q.w.UpdWrite? && q.w.id == id && id in s.db.rows && s.db.rows[id].inc == inc != q.w.found.inc ==>
      Wants(s.log, id, inc) == []
  }

  ghost predicate Counted(s: State, id: Id, inc: nat)
  {
    && UpdatesCounted(s.log, s.db, id, inc)
    && (forall p :: p in s.procs ==> IsFirst(s, s.procs[p], id, inc))
  }

  lemma UpdateCounts(cfg: Config, s: State, w: Writer, entry: Entry, id: Id, inc: nat)
    requires RowsOk(s.db) && w.UpdWrite? && WriterLocal(cfg, s.db, w) && IsFirst(s, Spec(w), id, inc)
    requires entry.at == Spec(w) && entry.hit == Hit(s.db, Some(w.id))
    requires UpdatesCounted(s.log, s.db, id, inc)
    ensures UpdatesCounted(s.log + [entry], SetSpec(s.db, w.id, w.found.version + 1, w.payload), id, inc)
  {
    OneMoreEntry(s.log, entry, id, inc);
  }

  lemma OthersDoNotCount(log: seq<Entry>, db: Db, e: Effect, entry: Entry, id: Id, inc: nat)
    requires !e.WriteSpec? && !(entry.at.Spec? && entry.at.w.UpdWrite?)
    requires UpdatesCounted(log, db, id, inc)
    ensures UpdatesCounted(log + [entry], Act(db, e), id, inc)
  {
    OneMoreEntry(log, entry, id, inc);
  }

  lemma OnlyUpdatesWriteSpec(cfg: Config, s: State, q: Proc, c: Choice)
    ensures Plan(cfg, s, q, c).0.WriteSpec? ==>
              q.Spec? && q.w.UpdWrite?
              && Plan(cfg, s, q, c).0 == WriteSpec(q.w.id, q.w.found.version + 1, q.w.payload)
    ensures q.Spec? && q.w.UpdWrite? ==> Plan(cfg, s, q, c).0.WriteSpec?
  {}

  lemma GoKeepsCount(cfg: Config, s: State, p: Pid, c: Choice, id: Id, inc: nat)
    requires RowsOk(s.db) && Can(cfg, s, Go(p, c)) && Local(cfg, s.db, s.procs[p]) && Counted(s, id, inc)
    ensures var s' := Next(cfg, s, Go(p, c)); UpdatesCounted(s'.log, s'.db, id, inc)
  {
    var q := s.procs[p];
    OnlyUpdatesWriteSpec(cfg, s, q, c);
    var (e, next) := Plan(cfg, s, q, c);
    var entry := Record(s.db, p, q, e);
    if q.Spec? && q.w.UpdWrite? {
      UpdateCounts(cfg, s, q.w, entry, id, inc);
    } else {
      OthersDoNotCount(s.log, s.db, e, entry, id, inc);
    }
  }

  /** While an update waits to write, nobody else updates the row. */
  lemma StaysFirst(cfg: Config, s: State, p: Pid, c: Choice, q: Pid, id: Id, inc: nat)
    requires Locked(cfg, s) && Can(cfg, s, Go(p, c)) && Counted(s, id, inc)
    requires q in s.procs && q != p && s.procs[q].Spec? && Awaits(s.procs[q], id)
    ensures IsFirst(Next(cfg, s, Go(p, c)), s.procs[q], id, inc)
  {
    var (e, next) := Plan(cfg, s, s.procs[p], c);
    var entry := Record(s.db, p, s.procs[p], e);
    OneMoreEntry(s.log, entry, id, inc);
    PlanKeepsInc(cfg, s, p, c, id);
    if IsUpdateOf(entry, id, inc) { Exclusive(cfg, s, p, q); }
  }

  lemma ReadsFirst(cfg: Config, s: State, p: Pid, c: Choice, id: Id, inc: nat)
    requires Can(cfg, s, Go(p, c))
    ensures var s' := Next(cfg, s, Go(p, c)); IsFirst(s', s'.procs[p], id, inc)
  {
    PlanAwaits(cfg, s, s.procs[p], c, id);
  }

  lemma StepKeepsCount(cfg: Config, s: State, a: Action, id: Id, inc: nat)
    requires Good(cfg, s) && Can(cfg, s, a) && Counted(s, id, inc)
    ensures Counted(Next(cfg, s, a), id, inc)
  {
    match a
    case Go(p, c) =>
      GoKeepsCount(cfg, s, p, c, id, inc);
      var s' := Next(cfg, s, a);
      forall q | q in s'.procs ensures IsFirst(s', s'.procs[q], id, inc) {
        if q == p {
          ReadsFirst(cfg, s, p, c, id, inc);
        } else if s.procs[q].Spec? && Awaits(s.procs[q], id) {
          StaysFirst(cfg, s, p, c, q, id, inc);
        }
      }
    case _ =>
  }

  /** Over every run the successful updates of an incarnation name consecutive versions, so at most
      one succeeds per version and each raises the version it named by exactly one. */
  lemma {:induction false} NoLostUpdates(cfg: Config, s: State, run: seq<Action>, id: Id, inc: nat)
    requires Good(cfg, s) && IsRun(cfg, s, run) && Counted(s, id, inc)
    ensures Counted(Exec(cfg, s, run), id, inc)
    decreases run
  {
    if run != [] {
      StepKeepsGood(cfg, s, run[0]);
      StepKeepsCount(cfg, s, run[0], id, inc);
      NoLostUpdates(cfg, Next(cfg, s, run[0]), run[1..], id, inc);
    }
  }

  /** In every reachable state, for every incarnation. */
  lemma ReachableIsCounted(cfg: Config, s: State, id: Id, inc: nat)
    requires Reachable(cfg, s)
    ensures UpdatesCounted(s.log, s.db, id, inc)
  {
    var run :| IsRun(cfg, Init, run) && Exec(cfg, Init, run) == s;
    NoLostUpdates(cfg, Init, run, id, inc);
  }

  // How the stored version comes about

  /** The identifiers created so far with their first versions; incarnations are numbered in order. */
  function Births(log: seq<Entry>): seq<(Id, int)>
  {
    if log == [] then []
    else
      var e := log[|log| - 1].effect;
      Births(log[..|log| - 1])
      + if e.Insert? then [(e.id, if e.version == 0 then 1 else e.version)] else []
  }

  lemma OneMoreBirth(log: seq<Entry>, entry: Entry)
    ensures Births(log + [entry]) == Births(log) + Births([entry])
  {
    assert (log + [entry])[..|log|] == log;
    assert [entry][..0] == [];
  }

  /** Every incarnation has its birth. */
  ghost predicate BirthsCounted(s: State, id: Id)
  {
    && |Births(s.log)| == s.db.nextInc
    && (id in s.db.rows ==> s.db.rows[id].inc < s.db.nextInc && Births(s.log)[s.db.rows[id].inc].0 == id)
  }

  /** The stored version is the first one and one more for each successful update. */
  ghost predicate AddsUp(s: State, id: Id)
    requires BirthsCounted(s, id)
  {
    id in s.db.rows ==>
      var row := s.db.rows[id];
      row.version == Births(s.log)[row.inc].1 + |Wants(s.log, id, row.inc)|
  }

  lemma StepKeepsBirths(cfg: Config, s: State, a: Action, id: Id)
    requires Can(cfg, s, a) && BirthsCounted(s, id)
    ensures BirthsCounted(Next(cfg, s, a), id)
  {
    if a.Go? {
      var (e, next) := Plan(cfg, s, s.procs[a.p], a.choice);
      OneMoreBirth(s.log, Record(s.db, a.p, s.procs[a.p], e));
      OnlyInsertsGiveBirth(s.db, e, id);
    }
  }

  lemma OnlyInsertsGiveBirth(db: Db, e: Effect, id: Id)
    ensures Act(db, e).nextInc == db.nextInc + if e.Insert? then 1 else 0
    ensures id in Act(db, e).rows ==>
              if e.Insert? && e.id == id then
                Act(db, e).rows[id].inc == db.nextInc
                && Act(db, e).rows[id].version == if e.version == 0 then 1 else e.version
              else id in db.rows && Act(db, e).rows[id].inc == db.rows[id].inc
  {}

  /** The update lands on a row of another version than it names. */
  predicate Mismatches(s: State, a: Action, id: Id)
  {
    WritesSpec(s, a, id) && Crosses(s, a, id) && s.procs[a.p].w.want != s.db.rows[id].version
  }

  /** A step keeps the count if and only if it is no update that crosses to another version. */
  lemma AddsUpIff(cfg: Config, s: State, a: Action, id: Id)
    requires Sound(cfg, s) && Can(cfg, s, a) && BirthsCounted(s, id) && AddsUp(s, id)
    requires UpdatesCounted(s.log, s.db, id, s.db.nextInc)
    ensures BirthsCounted(Next(cfg, s, a), id) && (AddsUp(Next(cfg, s, a), id) <==> !Mismatches(s, a, id))
  {
    StepKeepsBirths(cfg, s, a, id);
    if a.Go? {
      var (e, next) := Plan(cfg, s, s.procs[a.p], a.choice);
      var entry := Record(s.db, a.p, s.procs[a.p], e);
      OneMoreBirth(s.log, entry);
      OnlyInsertsGiveBirth(s.db, e, id);
      OneMoreEntry(s.log, entry, id, s.db.nextInc);
      PlanWrites(cfg, s, a.p, a.choice, id);
      if id in s.db.rows {
        OneMoreEntry(s.log, entry, id, s.db.rows[id].inc);
        RowAfter(cfg, s, a, id);
        if WritesSpec(s, a, id) { assert Local(cfg, s.db, s.procs[a.p]); }
      }
    }
  }

  ghost predicate AlwaysAddsUp(cfg: Config, s: State, run: seq<Action>, id: Id)
    decreases run
  {
    && BirthsCounted(s, id) && AddsUp(s, id)
    && (run == [] || AlwaysAddsUp(cfg, Next(cfg, s, run[0]), run[1..], id))
  }

  ghost predicate NeverMismatches(cfg: Config, s: State, run: seq<Action>, id: Id)
    decreases run
  {
    run == [] || (!Mismatches(s, run[0], id) && NeverMismatches(cfg, Next(cfg, s, run[0]), run[1..], id))
  }

  /** All along a run the stored version is the first one of its incarnation and one more for each
      successful update, if and only if no update crosses to another version than it names. */
  lemma {:induction false} AlwaysAddsUpIff(cfg: Config, s: State, run: seq<Action>, id: Id)
    requires Sound(cfg, s) && BirthsCounted(s, id) && AddsUp(s, id) && IsRun(cfg, s, run)
    requires forall inc :: Counted(s, id, inc)
    ensures AlwaysAddsUp(cfg, s, run, id) <==> NeverMismatches(cfg, s, run, id)
    decreases run
  {
    if run != [] {
      var t := Next(cfg, s, run[0]);
      assert Counted(s, id, s.db.nextInc);
      AddsUpIff(cfg, s, run[0], id);
      StepKeepsSound(cfg, s, run[0]);
      forall inc ensures Counted(t, id, inc) { StepKeepsCount(cfg, s, run[0], id, inc); }
      if AddsUp(t, id) { AlwaysAddsUpIff(cfg, t, run[1..], id); }
    }
  }

  lemma {:induction false} ConsecutiveFrom(v: seq<int>, i: nat)
    requires Consecutive(v) && i < |v|
    ensures v[i] == v[0] + i
  {
    if i > 0 { ConsecutiveFrom(v, i - 1); }
  }

  /** Then the first successful update names the first version. */
  lemma FirstUpdateNamesFirstVersion(s: State, id: Id)
    requires BirthsCounted(s, id) && AddsUp(s, id) && id in s.db.rows
    requires UpdatesCounted(s.log, s.db, id, s.db.rows[id].inc)
    ensures var inc := s.db.rows[id].inc;
            Wants(s.log, id, inc) != [] ==> Wants(s.log, id, inc)[0] == Births(s.log)[inc].1
  {
    var v := Wants(s.log, id, s.db.rows[id].inc);
    if v != [] { ConsecutiveFrom(v, |v| - 1); }
  }
}
