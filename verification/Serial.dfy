/** Serializability of the operations on one row: spec writes take the resource lock, status
    writes take another lock, and still every interleaving ends as some serial order does. */
module Serial {
  import opened Wrappers
  import opened Store
  import opened System
  import opened Discipline
  import Lifecycle

  datatype Decided = Decided(p: Pid, op: Op, verdict: Verdict)

  /** The row after whole operations one after the other. */
  function Replay(valid: string -> bool, row: Option<Row>, ops: seq<Decided>): Option<Row>
    decreases ops
  {
    if ops == [] then row else Replay(valid, Perform(valid, row, ops[0].op), ops[1..])
  }

  /** Run serially, every operation would decide as recorded. */
  predicate Faithful(valid: string -> bool, row: Option<Row>, ops: seq<Decided>)
    decreases ops
  {
    ops == [] || (ops[0].verdict == Judge(valid, row, ops[0].op)
                  && Faithful(valid, Perform(valid, row, ops[0].op), ops[1..]))
  }

  // The serial order of a run

  /** The operation on row `id` that takes its place in the serial order in this step, with the
      verdict its caller gets: one that changes nothing when it reads, one that writes when it writes. */
  function Decides(cfg: Config, s: State, a: Action, id: Id): Option<Decided>
  {
    if !a.Go? || a.p !in s.procs || Subject(s.procs[a.p]) != Some(id) then None
    else
      var found := s.db.Find(id);
      match s.procs[a.p]
      case Spec(w) =>
        (match w
         case CreRow(_, consumer, version, payload) =>
           var op := Create(s.db.nextInc, consumer, version, payload, s.db.clock);
           Some(Decided(a.p, op, Judge(cfg.valid, found, op)))
         case UpdRead(_, want, payload) => Unless(Accept, a.p, cfg, found, Update(want, payload))
         case UpdWrite(_, want, payload, _) => Some(Decided(a.p, Update(want, payload), Accept))
         case _ => None)
      case Deletion(d) =>
        var op := MarkDeleting(s.db.clock);
        if d.DelRead? then Unless(Accept, a.p, cfg, found, op)
        else if d.DelSoft? then Some(Decided(a.p, op, Accept))
        else None
      case Feedback(r) =>
        (match r
         case StaDrop(_) => Some(Decided(a.p, Drop, Accept))
         case StaRead(_, status) => Unless(Accept, a.p, cfg, found, Report(status))
         case StaWrite(_, status, _) => Some(Decided(a.p, Report(status), Accept))
         case _ => None)
      case _ => None
  }

  function Unless(v: Verdict, p: Pid, cfg: Config, found: Option<Row>, op: Op): Option<Decided>
  {
    if Judge(cfg.valid, found, op) == v then None
    else Some(Decided(p, op, Judge(cfg.valid, found, op)))
  }

  /** The verdict is the one the caller gets: a refusal ends the call with it, and what is accepted goes
      on. A delete request for a marked row goes on as a repeated one. */
  lemma VerdictsAreTold(cfg: Config, s: State, a: Action, id: Id)
    requires Can(cfg, s, a) && Decides(cfg, s, a, id).Some?
    ensures var d, next := Decides(cfg, s, a, id).value, Next(cfg, s, a).procs[a.p];
            if d.verdict.Accept? || (d.op.MarkDeleting? && d.verdict.Deleting?)
            then !(next.Done? && next.outcome.Rejected?)
            else next == Done(Rejected(d.verdict))
  {}

  /** The step writes to another incarnation than its process read, one for which its operation would
      not be accepted, and changes it. */
  predicate Misfits(cfg: Config, s: State, a: Action, id: Id)
  {
    Lifecycle.Crosses(s, a, id) &&
    match s.procs[a.p]
    case Spec(w) =>
      && !Judge(cfg.valid, s.db.Find(id), Update(w.want, w.payload)).Accept?
      && (s.db.rows[id].version != w.want + 1 || s.db.rows[id].payload != w.payload)
    case Feedback(r) => !Judge(cfg.valid, s.db.Find(id), Report(r.status)).Accept?
    case _ => false
  }

  ghost predicate Fits(cfg: Config, s: State, run: seq<Action>, id: Id)
    decreases run
  {
    run == [] || (!Misfits(cfg, s, run[0], id) && Fits(cfg, Next(cfg, s, run[0]), run[1..], id))
  }

  // `readAt` remembers how much of the order there was when a pending status report read, `lostAt`
  // where the row was removed under a pending update or soft delete.
  datatype Order = Order(ops: seq<Decided>, readAt: map<Pid, nat>, lostAt: map<Pid, nat>)

  function Insert(ops: seq<Decided>, at: nat, d: Decided): seq<Decided>
  {
    if at <= |ops| then ops[..at] + [d] + ops[at..] else ops + [d]
  }

  predicate IsReport(s: State, a: Action)
  {
    a.Go? && a.p in s.procs && s.procs[a.p].Feedback? && s.procs[a.p].r.StaWrite?
  }

  predicate ReadsReport(s: State, a: Action)
  {
    a.Go? && a.p in s.procs && s.procs[a.p].Feedback? && s.procs[a.p].r.StaRead?
  }

  /** The process has read the row and will update it or mark it deleted. */
  predicate IsWriter(q: Proc, id: Id)
  {
    (q.Spec? && q.w.UpdWrite? && q.w.id == id) || (q.Deletion? && q.d.DelSoft? && q.d.id == id)
  }

  /** Where the next operation goes: a status report where it read, or at the end if it writes to
      another incarnation; an update or soft delete that would not be accepted now directly before
      the removal of the row it read; any other at the end. */
  function Place(cfg: Config, s: State, a: Action, id: Id, o: Order): Order
  {
    match Decides(cfg, s, a, id)
    case None =>
      var o' := if ReadsReport(s, a) then o.(readAt := o.readAt[a.p := |o.ops|]) else o;
      if a.Go? then o'.(lostAt := o'.lostAt - {a.p}) else o'
    case Some(d) =>
      if IsReport(s, a) && a.p in o.readAt && !Lifecycle.Crosses(s, a, id) then InsertReport(o, o.readAt[a.p], d)
      else if !IsReport(s, a) && Judge(cfg.valid, s.db.Find(id), d.op) != d.verdict && a.p in o.lostAt then
        InsertWriter(o, o.lostAt[a.p], d)
      else
        o.(ops := o.ops + [d], lostAt := if d.op.Drop? then Lose(s, id, o) else o.lostAt)
  }

  function InsertReport(o: Order, at: nat, d: Decided): Order
  {
    o.(ops := Insert(o.ops, at, d),
       lostAt := map p | p in o.lostAt :: if at <= o.lostAt[p] then o.lostAt[p] + 1 else o.lostAt[p])
  }

  function InsertWriter(o: Order, at: nat, d: Decided): Order
  {
    o.(ops := Insert(o.ops, at, d),
       readAt := map p | p in o.readAt :: if at < o.readAt[p] then o.readAt[p] + 1 else o.readAt[p])
  }

  /** Whoever has not lost the row before loses it now. */
  function Lose(s: State, id: Id, o: Order): map<Pid, nat>
  {
    map p | p in s.procs && IsWriter(s.procs[p], id) :: if p in o.lostAt then o.lostAt[p] else |o.ops|
  }

  function SerialOrder(cfg: Config, s: State, run: seq<Action>, id: Id, o: Order): Order
    decreases run
  {
    if run == [] then o
    else SerialOrder(cfg, Next(cfg, s, run[0]), run[1..], id, Place(cfg, s, run[0], id, o))
  }

  /** The operations in the order their deciding steps were taken. */
  function InOrder(cfg: Config, s: State, run: seq<Action>, id: Id): seq<Decided>
    decreases run
  {
    if run == [] then []
    else
      var rest := InOrder(cfg, Next(cfg, s, run[0]), run[1..], id);
      match Decides(cfg, s, run[0], id)
      case Some(d) => [d] + rest
      case None => rest
  }

  // Replaying

  lemma {:induction false} ReplayConcat(valid: string -> bool, row: Option<Row>,
                                        a: seq<Decided>, b: seq<Decided>)
    ensures Replay(valid, row, a + b) == Replay(valid, Replay(valid, row, a), b)
    ensures Faithful(valid, row, a + b) <==>
            Faithful(valid, row, a) && Faithful(valid, Replay(valid, row, a), b)
    decreases a
  {
    if a == [] {
      assert a + b == b;
    } else {
      assert (a + b)[0] == a[0] && (a + b)[1..] == a[1..] + b;
      ReplayConcat(valid, Perform(valid, row, a[0].op), a[1..], b);
    }
  }

  predicate NoReports(ops: seq<Decided>) { forall i :: 0 <= i < |ops| ==> !ops[i].op.Report? }

  predicate HasDrop(ops: seq<Decided>) { exists i :: 0 <= i < |ops| && ops[i].op.Drop? }

  /** The status column commutes with everything but other reports, up to a hard delete. */
  lemma {:induction false} StatusCommutes(valid: string -> bool, r: Row, status: Option<Status>,
                                          ops: seq<Decided>)
    requires NoReports(ops)
    ensures var x := Replay(valid, Some(r), ops);
            var y := Replay(valid, Some(r.(status := status)), ops);
            if HasDrop(ops) then x == y
            else x.Some? && x.value.inc == r.inc && x.value.status == r.status
                 && y == Some(x.value.(status := status))
    ensures Faithful(valid, Some(r), ops) <==> Faithful(valid, Some(r.(status := status)), ops)
    decreases ops
  {
    if ops != [] {
      var r' := r.(status := status);
      if ops[0].op.Drop? {
        assert Perform(valid, Some(r), Drop) == Perform(valid, Some(r'), Drop) == None;
      } else {
        var t := Perform(valid, Some(r), ops[0].op);
        assert t.Some? && t.value.status == r.status && t.value.inc == r.inc;
        assert Perform(valid, Some(r'), ops[0].op) == Some(t.value.(status := status));
        StatusCommutes(valid, t.value, status, ops[1..]);
        assert HasDrop(ops) <==> HasDrop(ops[1..]) by {
          assert forall i :: 0 <= i < |ops[1..]| ==> ops[1..][i] == ops[i + 1];
        }
      }
    }
  }

  // The invariant: replaying the serial order gives the stored row

  ghost predicate IsPending(s: State, p: Pid, id: Id)
  {
    p in s.procs && s.procs[p].Feedback? && s.procs[p].r.StaWrite? && s.procs[p].r.id == id
  }

  ghost predicate PlaceKept(cfg: Config, from: Option<Row>, db: Db, id: Id, o: Order, p: Pid, found: Row)
  {
    && p in o.readAt && o.readAt[p] <= |o.ops|
    && Replay(cfg.valid, from, o.ops[..o.readAt[p]]) == Some(found)
    && NoReports(o.ops[o.readAt[p]..])
    && (HasDrop(o.ops[o.readAt[p]..]) <==> !(id in db.rows && db.rows[id].inc == found.inc))
  }

  /** The row is as the process read it, but for the status. */
  predicate Suits(q: Proc, row: Row)
  {
    if q.Spec? && q.w.UpdWrite? then row.(status := q.w.found.status) == q.w.found else row.Live()
  }

  /** The update or soft delete has its row, or lost it where the order says. */
  ghost predicate SlotKept(cfg: Config, from: Option<Row>, db: Db, id: Id, o: Order, p: Pid, q: Proc)
    requires IsWriter(q, id)
  {
    if p in o.lostAt then
      var k := o.lostAt[p];
      && k < |o.ops| && o.ops[k].op.Drop?
      && var x := Replay(cfg.valid, from, o.ops[..k]);
      && x.Some? && Suits(q, x.value)
      && (q.Spec? && id in db.rows ==> db.rows[id].inc != q.w.found.inc)
    else
      id in db.rows && (q.Spec? ==> db.rows[id].inc == q.w.found.inc)
  }

  /** Run in the serial order every operation decides as its caller was told, and the row is the
      stored one. */
  ghost predicate Matches(cfg: Config, from: Option<Row>, s: State, id: Id, o: Order)
  {
    Faithful(cfg.valid, from, o.ops) && Replay(cfg.valid, from, o.ops) == s.db.Find(id)
  }

  ghost predicate InSerial(cfg: Config, from: Option<Row>, s: State, id: Id, o: Order)
  {
    && Matches(cfg, from, s, id, o)
    && (forall p :: IsPending(s, p, id) ==> PlaceKept(cfg, from, s.db, id, o, p, s.procs[p].r.found))
    && (forall p :: p in s.procs && IsWriter(s.procs[p], id) ==>
          SlotKept(cfg, from, s.db, id, o, p, s.procs[p]))
  }

  lemma NoDecisionKeepsRow(cfg: Config, s: State, a: Action, id: Id)
    requires Can(cfg, s, a) && Decides(cfg, s, a, id).None?
    ensures Next(cfg, s, a).db.Find(id) == s.db.Find(id)
  {
  }

  /** An operation that decides as its caller is told acts as it would alone at that moment, unless
      it is a report on the row it read. */
  lemma DecisionActs(cfg: Config, s: State, a: Action, id: Id)
    requires Can(cfg, s, a) && a.Go? && Local(cfg, s.db, s.procs[a.p]) && Decides(cfg, s, a, id).Some?
    requires var d := Decides(cfg, s, a, id).value; Judge(cfg.valid, s.db.Find(id), d.op) == d.verdict
    ensures var d := Decides(cfg, s, a, id).value;
            && Next(cfg, s, a).db.Find(id) == Perform(cfg.valid, s.db.Find(id), d.op)
            && (d.op.Create? ==> d.op.inc == s.db.nextInc)
  {
  }

  /** An update or soft delete that would not be accepted any more has lost its row, and changes
      nothing unless it misfits. */
  lemma LostActs(cfg: Config, s: State, a: Action, id: Id)
    requires Can(cfg, s, a) && a.Go? && Local(cfg, s.db, s.procs[a.p]) && Decides(cfg, s, a, id).Some?
    requires var d := Decides(cfg, s, a, id).value; Judge(cfg.valid, s.db.Find(id), d.op) != d.verdict
    requires !IsReport(s, a)
    ensures IsWriter(s.procs[a.p], id)
    ensures id in s.db.rows ==> s.procs[a.p].Spec? && s.db.rows[id].inc != s.procs[a.p].w.found.inc
    ensures Next(cfg, s, a).db.Find(id) == s.db.Find(id) <==> !Misfits(cfg, s, a, id)
  {
  }

  /** A report that is decided holds the status lock of its row. */
  lemma ReportsAreLocked(cfg: Config, s: State, a: Action, id: Id)
    requires Decides(cfg, s, a, id).Some? && Decides(cfg, s, a, id).value.op.Report?
    ensures Holds(s.procs[a.p]) == Some(StatusLock(id))
  {
  }

  /** An update or deletion that is decided holds the resource lock. */
  lemma WritersAreLocked(cfg: Config, s: State, a: Action, id: Id)
    requires Decides(cfg, s, a, id).Some?
    requires Decides(cfg, s, a, id).value.op.Update? || Decides(cfg, s, a, id).value.op.MarkDeleting?
    ensures Holds(s.procs[a.p]) == Some(ResourceLock(id))
  {
  }

  lemma AppendKeepsPlace(cfg: Config, from: Option<Row>, db: Db, db': Db, id: Id, o: Order, d: Decided,
                         p: Pid, found: Row)
    requires PlaceKept(cfg, from, db, id, o, p, found) && !d.op.Report? && found.inc < db.nextInc
    requires db'.Find(id) == Perform(cfg.valid, db.Find(id), d.op)
    requires d.op.Create? ==> d.op.inc == db.nextInc
    ensures PlaceKept(cfg, from, db', id, o.(ops := o.ops + [d]), p, found)
  {
    var k := o.readAt[p];
    assert (o.ops + [d])[..k] == o.ops[..k];
    assert (o.ops + [d])[k..] == o.ops[k..] + [d];
    assert HasDrop(o.ops[k..] + [d]) <==> HasDrop(o.ops[k..]) || d.op.Drop? by {
      if HasDrop(o.ops[k..]) {
        var i :| 0 <= i < |o.ops[k..]| && o.ops[k..][i].op.Drop?;
        assert (o.ops[k..] + [d])[i].op.Drop?;
      }
      if d.op.Drop? { assert (o.ops[k..] + [d])[|o.ops[k..]|].op.Drop?; }
    }
  }

  lemma AppendReplays(cfg: Config, from: Option<Row>, ops: seq<Decided>, row: Option<Row>, d: Decided)
    requires Faithful(cfg.valid, from, ops) && Replay(cfg.valid, from, ops) == row
    requires d.verdict == Judge(cfg.valid, row, d.op)
    ensures Faithful(cfg.valid, from, ops + [d])
    ensures Replay(cfg.valid, from, ops + [d]) == Perform(cfg.valid, row, d.op)
  {
    ReplayConcat(cfg.valid, from, ops, [d]);
    assert Replay(cfg.valid, Perform(cfg.valid, row, d.op), []) == Perform(cfg.valid, row, d.op);
  }

  /** An accepted report inserted where it read leaves the row with its status. */
  lemma InsertReplays(cfg: Config, from: Option<Row>, db: Db, id: Id, o: Order, p: Pid, found: Row, d: Decided)
    requires Faithful(cfg.valid, from, o.ops) && Replay(cfg.valid, from, o.ops) == db.Find(id)
    requires PlaceKept(cfg, from, db, id, o, p, found)
    requires id in db.rows ==> db.rows[id].inc == found.inc
    requires d.op.Report? && d.verdict.Accept?
    requires Judge(cfg.valid, Some(found), d.op).Accept?
    ensures var ops := Insert(o.ops, o.readAt[p], d);
            && Faithful(cfg.valid, from, ops)
            && Replay(cfg.valid, from, ops) == SetStatus(db, id, d.op.status).Find(id)
  {
    var k := o.readAt[p];
    var before, after := o.ops[..k], o.ops[k..];
    assert before + after == o.ops;
    ReplayConcat(cfg.valid, from, before, after);
    StatusCommutes(cfg.valid, found, Some(d.op.status), after);
    assert Insert(o.ops, k, d) == before + ([d] + after);
    ReplayConcat(cfg.valid, from, before, [d] + after);
    assert ([d] + after)[0] == d && ([d] + after)[1..] == after;
  }

  /** An update inserted directly before the removal of the row it read leaves everything else as it was. */
  lemma WriterReplays(cfg: Config, from: Option<Row>, ops: seq<Decided>, k: nat, d: Decided)
    requires Faithful(cfg.valid, from, ops) && k < |ops| && ops[k].op.Drop?
    requires d.verdict.Accept? && Judge(cfg.valid, Replay(cfg.valid, from, ops[..k]), d.op).Accept?
    ensures Faithful(cfg.valid, from, Insert(ops, k, d))
    ensures forall r :: k < r <= |ops| ==>
              Replay(cfg.valid, from, Insert(ops, k, d)[..r + 1]) == Replay(cfg.valid, from, ops[..r])
  {
    var ops' := Insert(ops, k, d);
    assert ops == ops[..k] + ops[k..];
    ReplayConcat(cfg.valid, from, ops[..k], ops[k..]);
    assert ops' == ops[..k] + ([d] + ops[k..]);
    ReplayConcat(cfg.valid, from, ops[..k], [d] + ops[k..]);
    assert ([d] + ops[k..])[0] == d && ([d] + ops[k..])[1..] == ops[k..];
    forall r | k < r <= |ops| ensures Replay(cfg.valid, from, ops'[..r + 1]) == Replay(cfg.valid, from, ops[..r]) {
      DropForgets(cfg, from, ops, k, d, r);
    }
  }

  lemma PrefixSplits(ops: seq<Decided>, at: nat, k: nat, d: Decided)
    requires at <= k <= |ops|
    ensures ops[..k] == ops[..at] + ops[at..k]
    ensures Insert(ops, at, d)[..k + 1] == ops[..at] + ([d] + ops[at..k])
  {}

  lemma DropForgets(cfg: Config, from: Option<Row>, ops: seq<Decided>, k: nat, d: Decided, r: nat)
    requires k < r <= |ops| && ops[k].op.Drop?
    ensures Replay(cfg.valid, from, Insert(ops, k, d)[..r + 1]) == Replay(cfg.valid, from, ops[..r])
  {
    var before, rest := ops[..k], ops[k..r];
    PrefixSplits(ops, k, r, d);
    ReplayConcat(cfg.valid, from, before, rest);
    ReplayConcat(cfg.valid, from, before, [d] + rest);
    assert ([d] + rest)[0] == d && ([d] + rest)[1..] == rest;
    assert rest[0] == ops[k];
  }

  /** A process that is pending after a step was so before, or has just read the row. */
  lemma PendingBefore(cfg: Config, s: State, a: Action, id: Id, p: Pid)
    requires Can(cfg, s, a) && IsPending(Next(cfg, s, a), p, id)
    ensures || (IsPending(s, p, id) && s.procs[p] == Next(cfg, s, a).procs[p]
                && !(a.Go? && a.p == p))
            || (a.Go? && a.p == p && ReadsReport(s, a) && Decides(cfg, s, a, id).None?
                && Some(Next(cfg, s, a).procs[p].r.found) == s.db.Find(id))
  {
  }

  /** Likewise for updates and soft deletes. */
  lemma WriterBefore(cfg: Config, s: State, a: Action, id: Id, p: Pid)
    requires Can(cfg, s, a) && p in Next(cfg, s, a).procs && IsWriter(Next(cfg, s, a).procs[p], id)
    ensures || (p in s.procs && s.procs[p] == Next(cfg, s, a).procs[p] && !(a.Go? && a.p == p))
            || (a.Go? && a.p == p && Decides(cfg, s, a, id).None? && id in s.db.rows
                && (Next(cfg, s, a).procs[p].Spec? ==> Next(cfg, s, a).procs[p].w.found == s.db.rows[id]))
  {
  }

  lemma QuietReports(cfg: Config, from: Option<Row>, s: State, a: Action, id: Id, o: Order, p: Pid)
    requires Can(cfg, s, a) && Decides(cfg, s, a, id).None? && InSerial(cfg, from, s, id, o)
    requires IsPending(Next(cfg, s, a), p, id)
    ensures var s' := Next(cfg, s, a);
            PlaceKept(cfg, from, s'.db, id, Place(cfg, s, a, id, o), p, s'.procs[p].r.found)
  {
    NoDecisionKeepsRow(cfg, s, a, id);
    PendingBefore(cfg, s, a, id, p);
    assert o.ops[..|o.ops|] == o.ops && o.ops[|o.ops|..] == [];
  }

  lemma QuietStep(cfg: Config, from: Option<Row>, s: State, a: Action, id: Id, o: Order)
    requires Can(cfg, s, a) && Decides(cfg, s, a, id).None? && InSerial(cfg, from, s, id, o)
    ensures InSerial(cfg, from, Next(cfg, s, a), id, Place(cfg, s, a, id, o))
  {
    NoDecisionKeepsRow(cfg, s, a, id);
    var s', o' := Next(cfg, s, a), Place(cfg, s, a, id, o);
    forall p | IsPending(s', p, id)
      ensures PlaceKept(cfg, from, s'.db, id, o', p, s'.procs[p].r.found)
    {
      QuietReports(cfg, from, s, a, id, o, p);
    }
    forall p | p in s'.procs && IsWriter(s'.procs[p], id)
      ensures SlotKept(cfg, from, s'.db, id, o', p, s'.procs[p])
    {
      WriterBefore(cfg, s, a, id, p);
    }
  }

  /** Only one report of a row is ever past its lock. */
  lemma OnlyPending(cfg: Config, s: State, a: Action, id: Id, p: Pid)
    requires Good(cfg, s) && Can(cfg, s, a) && IsPending(s, p, id)
    requires Decides(cfg, s, a, id).Some? && Decides(cfg, s, a, id).value.op.Report?
    ensures a.p == p
  {
    ReportsAreLocked(cfg, s, a, id);
    Exclusive(cfg, s, a.p, p);
  }

  /** And only one update or deletion. */
  lemma OnlyWriter(cfg: Config, s: State, a: Action, id: Id, p: Pid)
    requires Good(cfg, s) && Can(cfg, s, a) && p in s.procs && IsWriter(s.procs[p], id)
    requires Decides(cfg, s, a, id).Some?
    requires Decides(cfg, s, a, id).value.op.Update? || Decides(cfg, s, a, id).value.op.MarkDeleting?
    ensures a.p == p
  {
    WritersAreLocked(cfg, s, a, id);
    Exclusive(cfg, s, a.p, p);
  }

  lemma AppendKeepsSlot(cfg: Config, from: Option<Row>, s: State, db': Db, id: Id, o: Order, o': Order, d: Decided,
                        p: Pid, q: Proc)
    requires p in s.procs && s.procs[p] == q && IsWriter(q, id) && Local(cfg, s.db, q)
    requires SlotKept(cfg, from, s.db, id, o, p, q) && Replay(cfg.valid, from, o.ops) == s.db.Find(id)
    requires !d.op.Update? && !d.op.MarkDeleting?
    requires o'.ops == o.ops + [d] && o'.lostAt == if d.op.Drop? then Lose(s, id, o) else o.lostAt
    requires db'.Find(id) == Perform(cfg.valid, s.db.Find(id), d.op)
    requires d.op.Create? ==> d.op.inc == s.db.nextInc
    ensures SlotKept(cfg, from, db', id, o', p, q)
  {
    if p in o.lostAt {
      assert o'.ops[..o.lostAt[p]] == o.ops[..o.lostAt[p]];
    } else {
      assert o'.ops[..|o.ops|] == o.ops;
    }
  }

  /** What decides as its caller is told goes to the end. */
  lemma AppendStep(cfg: Config, from: Option<Row>, s: State, a: Action, id: Id, o: Order)
    requires Good(cfg, s) && Can(cfg, s, a) && InSerial(cfg, from, s, id, o) && Decides(cfg, s, a, id).Some?
    requires var d := Decides(cfg, s, a, id).value; Judge(cfg.valid, s.db.Find(id), d.op) == d.verdict
    requires IsReport(s, a) ==> Lifecycle.Crosses(s, a, id)
    ensures InSerial(cfg, from, Next(cfg, s, a), id, Place(cfg, s, a, id, o))
  {
    var d := Decides(cfg, s, a, id).value;
    var s', o' := Next(cfg, s, a), Place(cfg, s, a, id, o);
    DecisionActs(cfg, s, a, id);
    AppendReplays(cfg, from, o.ops, s.db.Find(id), d);
    forall p | IsPending(s', p, id)
      ensures PlaceKept(cfg, from, s'.db, id, o', p, s'.procs[p].r.found)
    {
      PendingBefore(cfg, s, a, id, p);
      if d.op.Report? { OnlyPending(cfg, s, a, id, p); }
      assert Local(cfg, s.db, s.procs[p]);
      AppendKeepsPlace(cfg, from, s.db, s'.db, id, o, d, p, s'.procs[p].r.found);
    }
    forall p | p in s'.procs && IsWriter(s'.procs[p], id)
      ensures SlotKept(cfg, from, s'.db, id, o', p, s'.procs[p])
    {
      WriterBefore(cfg, s, a, id, p);
      if d.op.Update? || d.op.MarkDeleting? { OnlyWriter(cfg, s, a, id, p); }
      assert Local(cfg, s.db, s.procs[p]);
      AppendKeepsSlot(cfg, from, s, s'.db, id, o, o', d, p, s.procs[p]);
    }
  }

  lemma RestShifts(valid: string -> bool, found: Row, d: Decided, rest: seq<Decided>)
    requires NoReports(rest) && d.op.Report? && Judge(valid, Some(found), d.op).Accept?
    ensures var x, y := Replay(valid, Some(found), rest), Replay(valid, Some(found), [d] + rest);
            x.Some? ==> y.Some? && y.value.(status := x.value.status) == x.value
  {
    assert ([d] + rest)[0] == d && ([d] + rest)[1..] == rest;
    StatusCommutes(valid, found, Some(d.op.status), rest);
  }

  /** A report inserted where it read changes nothing later but the status. */
  lemma ReportShifts(cfg: Config, from: Option<Row>, ops: seq<Decided>, at: nat, k: nat, found: Row, d: Decided)
    requires at <= k <= |ops| && NoReports(ops[at..]) && Replay(cfg.valid, from, ops[..at]) == Some(found)
    requires d.op.Report? && Judge(cfg.valid, Some(found), d.op).Accept?
    ensures var x := Replay(cfg.valid, from, ops[..k]);
            var y := Replay(cfg.valid, from, Insert(ops, at, d)[..k + 1]);
            x.Some? ==> y.Some? && y.value.(status := x.value.status) == x.value
  {
    var rest := ops[at..k];
    PrefixSplits(ops, at, k, d);
    ReplayConcat(cfg.valid, from, ops[..at], rest);
    ReplayConcat(cfg.valid, from, ops[..at], [d] + rest);
    assert forall i :: 0 <= i < |rest| ==> rest[i] == ops[at..][i];
    RestShifts(cfg.valid, found, d, rest);
  }

  lemma ReportKeepsSlot(cfg: Config, from: Option<Row>, db: Db, db': Db, id: Id, o: Order, r: Pid, found: Row,
                        d: Decided, p: Pid, q: Proc)
    requires IsWriter(q, id) && SlotKept(cfg, from, db, id, o, p, q)
    requires PlaceKept(cfg, from, db, id, o, r, found) && d.op.Report?
    requires Judge(cfg.valid, Some(found), d.op).Accept?
    requires db' == SetStatus(db, id, d.op.status)
    ensures SlotKept(cfg, from, db', id, InsertReport(o, o.readAt[r], d), p, q)
  {
    if p in o.lostAt {
      var at, k := o.readAt[r], o.lostAt[p];
      var ops' := Insert(o.ops, at, d);
      if k < at {
        assert ops'[..k] == o.ops[..k] && ops'[k] == o.ops[k];
      } else {
        ReportShifts(cfg, from, o.ops, at, k, found, d);
        assert ops'[k + 1] == o.ops[k];
      }
    }
  }

  lemma ReportStep(cfg: Config, from: Option<Row>, s: State, a: Action, id: Id, o: Order)
    requires Good(cfg, s) && Can(cfg, s, a) && InSerial(cfg, from, s, id, o)
    requires Decides(cfg, s, a, id).Some? && IsReport(s, a) && !Lifecycle.Crosses(s, a, id)
    ensures InSerial(cfg, from, Next(cfg, s, a), id, Place(cfg, s, a, id, o))
  {
    var d := Decides(cfg, s, a, id).value;
    var s', o' := Next(cfg, s, a), Place(cfg, s, a, id, o);
    var found := s.procs[a.p].r.found;
    assert IsPending(s, a.p, id) && Local(cfg, s.db, s.procs[a.p]);
    InsertReplays(cfg, from, s.db, id, o, a.p, found, d);
    forall p | IsPending(s', p, id) ensures false {
      PendingBefore(cfg, s, a, id, p);
      OnlyPending(cfg, s, a, id, p);
    }
    forall p | p in s'.procs && IsWriter(s'.procs[p], id)
      ensures SlotKept(cfg, from, s'.db, id, o', p, s'.procs[p])
    {
      WriterBefore(cfg, s, a, id, p);
      ReportKeepsSlot(cfg, from, s.db, s'.db, id, o, a.p, found, d, p, s.procs[p]);
    }
  }

  lemma SuffixWith(ops: seq<Decided>, k: nat, d: Decided, r: nat)
    requires r <= k < |ops| && ops[k].op.Drop? && !d.op.Report? && NoReports(ops[r..])
    ensures NoReports(Insert(ops, k, d)[r..]) && HasDrop(Insert(ops, k, d)[r..]) && HasDrop(ops[r..])
  {
    var rest, rest' := ops[r..], Insert(ops, k, d)[r..];
    assert rest[k - r] == ops[k] && rest'[k + 1 - r] == ops[k];
    assert rest' == rest[..k - r] + [d] + rest[k - r..];
  }

  lemma WriterKeepsPlace(cfg: Config, from: Option<Row>, db: Db, id: Id, o: Order, k: nat, d: Decided,
                         p: Pid, found: Row)
    requires k < |o.ops| && o.ops[k].op.Drop? && !d.op.Report? && !d.op.Drop?
    requires PlaceKept(cfg, from, db, id, o, p, found)
    ensures PlaceKept(cfg, from, db, id, InsertWriter(o, k, d), p, found)
  {
    var r, ops' := o.readAt[p], Insert(o.ops, k, d);
    if k < r {
      DropForgets(cfg, from, o.ops, k, d, r);
      assert ops'[r + 1..] == o.ops[r..];
    } else {
      SuffixWith(o.ops, k, d, r);
      assert ops'[..r] == o.ops[..r];
    }
  }

  /** What has lost its row goes directly before the removal. The outcome is the row as it was. */
  lemma LostMatches(cfg: Config, from: Option<Row>, s: State, a: Action, id: Id, o: Order)
    requires Good(cfg, s) && Can(cfg, s, a) && InSerial(cfg, from, s, id, o) && Decides(cfg, s, a, id).Some?
    requires var d := Decides(cfg, s, a, id).value; Judge(cfg.valid, s.db.Find(id), d.op) != d.verdict
    requires !IsReport(s, a)
    ensures a.p in o.lostAt && IsWriter(s.procs[a.p], id)
    ensures var d := Decides(cfg, s, a, id).value;
            Place(cfg, s, a, id, o) == InsertWriter(o, o.lostAt[a.p], d) && !d.op.Report? && !d.op.Drop?
    ensures Matches(cfg, from, s, id, Place(cfg, s, a, id, o))
  {
    var d := Decides(cfg, s, a, id).value;
    assert Local(cfg, s.db, s.procs[a.p]);
    LostActs(cfg, s, a, id);
    WriterReplays(cfg, from, o.ops, o.lostAt[a.p], d);
    var ops' := Place(cfg, s, a, id, o).ops;
    assert o.ops[..|o.ops|] == o.ops && ops'[..|o.ops| + 1] == ops';
  }

  lemma LostStep(cfg: Config, from: Option<Row>, s: State, a: Action, id: Id, o: Order)
    requires Good(cfg, s) && Can(cfg, s, a) && InSerial(cfg, from, s, id, o) && Decides(cfg, s, a, id).Some?
    requires var d := Decides(cfg, s, a, id).value; Judge(cfg.valid, s.db.Find(id), d.op) != d.verdict
    requires !IsReport(s, a)
    ensures Matches(cfg, from, Next(cfg, s, a), id, Place(cfg, s, a, id, o)) <==> !Misfits(cfg, s, a, id)
    ensures !Misfits(cfg, s, a, id) ==> InSerial(cfg, from, Next(cfg, s, a), id, Place(cfg, s, a, id, o))
  {
    var d := Decides(cfg, s, a, id).value;
    var s', o' := Next(cfg, s, a), Place(cfg, s, a, id, o);
    assert Local(cfg, s.db, s.procs[a.p]);
    LostActs(cfg, s, a, id);
    LostMatches(cfg, from, s, a, id, o);
    if !Misfits(cfg, s, a, id) {
      forall p | IsPending(s', p, id)
        ensures PlaceKept(cfg, from, s'.db, id, o', p, s'.procs[p].r.found)
      {
        PendingBefore(cfg, s, a, id, p);
        WriterKeepsPlace(cfg, from, s.db, id, o, o.lostAt[a.p], d, p, s.procs[p].r.found);
      }
      forall p | p in s'.procs && IsWriter(s'.procs[p], id) ensures false {
        WriterBefore(cfg, s, a, id, p);
        OnlyWriter(cfg, s, a, id, p);
      }
    }
  }

  /** A report that misfits goes to the end, where it would not be accepted. */
  lemma MisfitReport(cfg: Config, from: Option<Row>, s: State, a: Action, id: Id, o: Order)
    requires InSerial(cfg, from, s, id, o) && Decides(cfg, s, a, id).Some? && IsReport(s, a)
    requires Misfits(cfg, s, a, id)
    ensures !Faithful(cfg.valid, from, Place(cfg, s, a, id, o).ops)
  {
    ReplayConcat(cfg.valid, from, o.ops, [Decides(cfg, s, a, id).value]);
  }

  /** A step keeps the order faithful, with the stored row as its outcome, if and only if it does not
      misfit. */
  lemma MatchesIff(cfg: Config, from: Option<Row>, s: State, a: Action, id: Id, o: Order)
    requires Good(cfg, s) && Can(cfg, s, a) && InSerial(cfg, from, s, id, o)
    ensures Matches(cfg, from, Next(cfg, s, a), id, Place(cfg, s, a, id, o)) <==> !Misfits(cfg, s, a, id)
    ensures !Misfits(cfg, s, a, id) ==> InSerial(cfg, from, Next(cfg, s, a), id, Place(cfg, s, a, id, o))
  {
    if Decides(cfg, s, a, id).None? {
      QuietStep(cfg, from, s, a, id, o);
    } else if IsReport(s, a) && !Lifecycle.Crosses(s, a, id) {
      ReportStep(cfg, from, s, a, id, o);
    } else {
      var d := Decides(cfg, s, a, id).value;
      if Judge(cfg.valid, s.db.Find(id), d.op) == d.verdict {
        AppendStep(cfg, from, s, a, id, o);
      } else if IsReport(s, a) {
        MisfitReport(cfg, from, s, a, id, o);
      } else {
        LostStep(cfg, from, s, a, id, o);
      }
    }
  }

  ghost predicate AlwaysMatches(cfg: Config, from: Option<Row>, s: State, run: seq<Action>, id: Id, o: Order)
    decreases run
  {
    && Matches(cfg, from, s, id, o)
    && (run == [] || AlwaysMatches(cfg, from, Next(cfg, s, run[0]), run[1..], id, Place(cfg, s, run[0], id, o)))
  }

  /** The order is faithful, with the stored row as its outcome, all along a run if and only if no
      step of it misfits. */
  lemma {:induction false} AlwaysMatchesIff(cfg: Config, from: Option<Row>, s: State, run: seq<Action>,
                                            id: Id, o: Order)
    requires Good(cfg, s) && IsRun(cfg, s, run) && InSerial(cfg, from, s, id, o)
    ensures AlwaysMatches(cfg, from, s, run, id, o) <==> Fits(cfg, s, run, id)
    decreases run
  {
    if run != [] {
      MatchesIff(cfg, from, s, run[0], id, o);
      StepKeepsGood(cfg, s, run[0]);
      if !Misfits(cfg, s, run[0], id) {
        AlwaysMatchesIff(cfg, from, Next(cfg, s, run[0]), run[1..], id, Place(cfg, s, run[0], id, o));
      }
    }
  }

  lemma {:induction false} RunKeepsSerial(cfg: Config, from: Option<Row>, s: State,
                                          run: seq<Action>, id: Id, o: Order)
    requires Good(cfg, s) && IsRun(cfg, s, run) && Fits(cfg, s, run, id)
    requires InSerial(cfg, from, s, id, o)
    ensures InSerial(cfg, from, Exec(cfg, s, run), id, SerialOrder(cfg, s, run, id, o))
    ensures multiset(SerialOrder(cfg, s, run, id, o).ops) ==
            multiset(o.ops) + multiset(InOrder(cfg, s, run, id))
    decreases run
  {
    if run != [] {
      StepKeepsGood(cfg, s, run[0]);
      MatchesIff(cfg, from, s, run[0], id, o);
      RunKeepsSerial(cfg, from, Next(cfg, s, run[0]), run[1..], id, Place(cfg, s, run[0], id, o));
      PlaceAddsOne(cfg, s, run[0], id, o);
    }
  }

  lemma InsertAddsOne(ops: seq<Decided>, at: nat, d: Decided)
    ensures multiset(Insert(ops, at, d)) == multiset(ops) + multiset{d}
  {
    if at <= |ops| { assert ops == ops[..at] + ops[at..]; }
  }

  lemma PlaceAddsOne(cfg: Config, s: State, a: Action, id: Id, o: Order)
    ensures multiset(Place(cfg, s, a, id, o).ops) ==
            multiset(o.ops) + match Decides(cfg, s, a, id)
                              case Some(d) => multiset{d}
                              case None => multiset{}
  {
    if Decides(cfg, s, a, id).Some? && a.Go? {
      var d := Decides(cfg, s, a, id).value;
      if a.p in o.readAt { InsertAddsOne(o.ops, o.readAt[a.p], d); }
      if a.p in o.lostAt { InsertAddsOne(o.ops, o.lostAt[a.p], d); }
    }
  }

  const Unordered := Order([], map[], map[])

  /** No report on the row is under way, and whoever is about to update or mark it has its row. */
  ghost predicate IsFresh(s: State, id: Id)
  {
    && (forall p :: !IsPending(s, p, id))
    && (forall p :: p in s.procs && IsWriter(s.procs[p], id) ==>
          id in s.db.rows && (s.procs[p].Spec? ==> s.db.rows[id].inc == s.procs[p].w.found.inc))
  }

  lemma FreshIsMatched(s: State, id: Id)
    requires IsFresh(s, id)
    ensures Lifecycle.IsMatched(s, id)
  {
    forall p | p in s.procs && Lifecycle.Awaits(s.procs[p], id) && id in s.db.rows
      ensures s.db.rows[id].inc == Lifecycle.ReadInc(s.procs[p])
    {
      assert !IsPending(s, p, id) && IsWriter(s.procs[p], id);
    }
  }

  /** Every run without a misfit on `id` from a fresh state leaves the row as a serial order of its
      operations does, each deciding as its caller was told; the order is a rearrangement of the
      deciding steps. Other rows do not matter. */
  lemma SerializableFrom(cfg: Config, s: State, run: seq<Action>, id: Id)
    requires Good(cfg, s) && IsRun(cfg, s, run) && Fits(cfg, s, run, id)
    requires IsFresh(s, id)
    ensures var ops := SerialOrder(cfg, s, run, id, Unordered).ops;
            && Replay(cfg.valid, s.db.Find(id), ops) == Exec(cfg, s, run).db.Find(id)
            && Faithful(cfg.valid, s.db.Find(id), ops)
            && multiset(ops) == multiset(InOrder(cfg, s, run, id))
  {
    RunKeepsSerial(cfg, s.db.Find(id), s, run, id, Unordered);
  }

  lemma Serializable(cfg: Config, run: seq<Action>, id: Id)
    requires IsRun(cfg, Init, run) && Fits(cfg, Init, run, id)
    ensures var ops := SerialOrder(cfg, Init, run, id, Unordered).ops;
            && Replay(cfg.valid, None, ops) == Exec(cfg, Init, run).db.Find(id)
            && Faithful(cfg.valid, None, ops)
            && multiset(ops) == multiset(InOrder(cfg, Init, run, id))
  {
    SerializableFrom(cfg, Init, run, id);
  }

  lemma {:induction false} CalmRunsFit(cfg: Config, s: State, run: seq<Action>, id: Id)
    requires Lifecycle.IsCalm(cfg, s, run, id)
    ensures Fits(cfg, s, run, id)
    decreases run
  {
    if run != [] { CalmRunsFit(cfg, Next(cfg, s, run[0]), run[1..], id); }
  }

  /** In particular when the identifier is never created while somebody who has read its row has yet
      to write it. */
  lemma UndisturbedIsSerializable(cfg: Config, run: seq<Action>, id: Id)
    requires IsRun(cfg, Init, run) && Lifecycle.IsUndisturbed(cfg, Init, run, id)
    ensures var ops := SerialOrder(cfg, Init, run, id, Unordered).ops;
            && Replay(cfg.valid, None, ops) == Exec(cfg, Init, run).db.Find(id)
            && Faithful(cfg.valid, None, ops)
            && multiset(ops) == multiset(InOrder(cfg, Init, run, id))
  {
    Lifecycle.UndisturbedRunsAreCalm(cfg, Init, run, id);
    CalmRunsFit(cfg, Init, run, id);
    Serializable(cfg, run, id);
  }

  /** No serial order puts a status ahead of its row, so a run that does is not serializable. */
  lemma {:induction false} SerialIsBounded(valid: string -> bool, row: Option<Row>, ops: seq<Decided>)
    requires row.Some? ==> Lifecycle.StatusBounded(row.value)
    ensures var t := Replay(valid, row, ops); t.Some? ==> Lifecycle.StatusBounded(t.value)
    decreases ops
  {
    if ops != [] { SerialIsBounded(valid, Perform(valid, row, ops[0].op), ops[1..]); }
  }
}
