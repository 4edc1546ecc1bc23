/** An identifier can be hard deleted and created again while a process is between its read and its
    write, since neither takes the lock. What the locks still say about the new incarnation. */
module Incarnations {
  import opened Wrappers
  import opened Store
  import opened System
  import opened Discipline

  /** The incarnation a delete request dealt with. */
  function Target(d: Deleter): Option<nat>
  {
    match d
    case DelEvent(_, cause) => cause
    case RepFind(_, inc) => Some(inc)
    case RepCheck(_, inc, _) => Some(inc)
    case RepEvent(_, inc) => Some(inc)
    case _ => None
  }

  predicate HasMarked(d: Deleter) { d.DelEvent? || d.RepFind? || d.RepCheck? || d.RepEvent? }

  /** An update writes to a live row, a report that lands on another incarnation than it read finds
      no status there, and under the lock of a delete request no other incarnation is marked. */
  ghost predicate ProcSound(db: Db, q: Proc)
  {
    match q
    case Spec(w) => w.UpdWrite? && w.id in db.rows ==> db.rows[w.id].Live()
    case Deletion(d) =>
      HasMarked(d) && d.id in db.rows && !db.rows[d.id].Live() ==> Target(d) == Some(db.rows[d.id].inc)
    case Feedback(r) =>
      r.StaWrite? && r.id in db.rows && db.rows[r.id].inc != r.found.inc ==> db.rows[r.id].status.None?
    case _ => true
  }

  /** Delete events that announce another incarnation were inserted before this one was marked. */
  ghost predicate OthersFirst(db: Db)
  {
    forall eid :: eid in db.issued && db.issued[eid].kind.DeleteEvent? ==>
      var id := db.issued[eid].sourceId;
      id in db.rows && !db.rows[id].Live() && db.issued[eid].cause != Some(db.rows[id].inc) ==>
        db.issued[eid].createdAt <= db.rows[id].deletedAt.value
  }

  ghost predicate Sound(cfg: Config, s: State)
  {
    && Good(cfg, s) && OthersFirst(s.db)
    && (forall p :: p in s.procs ==> ProcSound(s.db, s.procs[p]))
  }

  /** What a sound process guarantees of its effects. */
  ghost predicate EffectSound(db: Db, e: Effect)
  {
    match e
    case WriteSpec(id, _, _) => id in db.rows ==> db.rows[id].Live()
    case Enqueue(id, kind, cause) =>
      kind.DeleteEvent? && id in db.rows && !db.rows[id].Live() ==> cause == Some(db.rows[id].inc)
    case _ => true
  }

  lemma PlanSound(cfg: Config, s: State, q: Proc, c: Choice)
    requires ProcSound(s.db, q)
    ensures EffectSound(s.db, Plan(cfg, s, q, c).0)
  {}

  lemma StaysSound(db: Db, q: Proc, e: Effect)
    requires RowsOk(db) && ProcSound(db, q) && (Guard(e).Some? ==> Holds(q) != Guard(e))
    ensures ProcSound(Act(db, e), q)
  {}

  lemma ActKeepsOthersFirst(cfg: Config, db: Db, e: Effect)
    requires DbOk(db) && OthersFirst(db) && EffectSound(db, e)
    ensures OthersFirst(Act(db, e))
  {}

  lemma PlanKeepsSound(cfg: Config, s: State, q: Proc, c: Choice)
    requires Local(cfg, s.db, q) && ProcSound(s.db, q)
    ensures var (e, next) := Plan(cfg, s, q, c); ProcSound(Act(s.db, e), next)
  {}

  lemma GoKeepsSound(cfg: Config, s: State, p: Pid, c: Choice)
    requires Sound(cfg, s) && Can(cfg, s, Go(p, c))
    ensures Sound(cfg, Next(cfg, s, Go(p, c)))
  {
    var (e, next) := Plan(cfg, s, s.procs[p], c);
    StepKeepsGood(cfg, s, Go(p, c));
    PlanSound(cfg, s, s.procs[p], c);
    GuardedWrites(cfg, s, s.procs[p], c);
    ActKeepsOthersFirst(cfg, s.db, e);
    PlanKeepsSound(cfg, s, s.procs[p], c);
    forall q | q in s.procs && q != p ensures ProcSound(Act(s.db, e), s.procs[q]) {
      if Guard(e).Some? && Holds(s.procs[q]) == Guard(e) { Exclusive(cfg, s, p, q); }
      StaysSound(s.db, s.procs[q], e);
    }
  }

  lemma StepKeepsSound(cfg: Config, s: State, a: Action)
    requires Sound(cfg, s) && Can(cfg, s, a)
    ensures Sound(cfg, Next(cfg, s, a))
  {
    match a
    case Go(p, c) => GoKeepsSound(cfg, s, p, c);
    case _ => StepKeepsGood(cfg, s, a);
  }

  lemma {:induction false} RunKeepsSound(cfg: Config, s: State, run: seq<Action>)
    requires Sound(cfg, s) && IsRun(cfg, s, run)
    ensures Sound(cfg, Exec(cfg, s, run))
    decreases run
  {
    if run != [] {
      StepKeepsSound(cfg, s, run[0]);
      RunKeepsSound(cfg, Next(cfg, s, run[0]), run[1..]);
    }
  }

  lemma ReachableIsSound(cfg: Config, s: State)
    requires Reachable(cfg, s)
    ensures Sound(cfg, s)
  {
    var run :| IsRun(cfg, Init, run) && Exec(cfg, Init, run) == s;
    RunKeepsSound(cfg, Init, run);
  }
}
