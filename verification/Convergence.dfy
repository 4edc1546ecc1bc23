/** Status delivery is order independent: of the reports on one resource version from one
    sequence node the greatest ends up stored, in whatever order they arrive or interleave. */
module Convergence {
  import opened Wrappers
  import opened Store
  import opened System
  import opened Discipline
  import Lifecycle
  import opened Serial
  import SequenceIds

  /** A status with a well formed number of the node. */
  predicate IsOf(st: Status, node: int)
  {
    SequenceIds.Parse(st.seqId).Some? && SequenceIds.Node(SequenceIds.Parse(st.seqId).value) == node
  }

  /** A well formed report on the version from the node. */
  predicate InFamily(st: Status, version: int, node: int) { st.version == version && IsOf(st, node) }

  function Number(st: Status): int
    requires SequenceIds.Parse(st.seqId).Some?
  {
    SequenceIds.Parse(st.seqId).value
  }

  /** The operation is a report of the family, or leaves version and status alone. */
  predicate IsQuiet(d: Decided, version: int, node: int)
  {
    (d.op.Report? && InFamily(d.op.status, version, node)) || d.op.MarkDeleting? || !d.verdict.Accept?
  }

  predicate AllQuiet(ops: seq<Decided>, version: int, node: int)
  {
    forall i :: 0 <= i < |ops| ==> IsQuiet(ops[i], version, node)
  }

  /** The reported statuses of the family. */
  function Reports(ops: seq<Decided>, version: int, node: int): set<Status>
  {
    if ops == [] then {}
    else
      var op := ops[0].op;
      Reports(ops[1..], version, node)
      + if op.Report? && InFamily(op.status, version, node) then {op.status} else {}
  }

  /** Numbers tell the statuses apart. */
  ghost predicate Distinct(all: set<Status>)
  {
    forall a, b :: a in all && b in all ==>
      SequenceIds.Parse(a.seqId).Some? && SequenceIds.Parse(b.seqId) == SequenceIds.Parse(a.seqId) ==>
      a == b
  }

  /** `best` is the greatest of the statuses in `all`, which may be of several versions. */
  ghost predicate IsGreatest(best: Option<Status>, all: set<Status>, node: int)
  {
    match best
    case None => all == {}
    case Some(b) =>
      && b in all && IsOf(b, node)
      && forall st :: st in all ==> IsOf(st, node) && (st == b || Number(st) < Number(b))
  }

  /** One more report keeps the greatest. */
  lemma OneReport(valid: string -> bool, row: Row, st: Status, seen: set<Status>, node: int)
    requires InFamily(st, row.version, node)
    requires IsGreatest(row.status, seen, node) && Distinct(seen + {st})
    ensures var row' := Perform(valid, Some(row), Report(st)).value;
            IsGreatest(row'.status, seen + {st}, node)
  {
    if row.status.Some? {
      assert row.status.value in seen + {st} && st in seen + {st};
      SequenceIds.CompareIsIntegerOrder(st.seqId, row.status.value.seqId);
    }
    assert SequenceIds.Parse("").None?;
  }

  lemma QuietKeepsVersion(valid: string -> bool, row: Row, d: Decided, node: int)
    requires IsQuiet(d, row.version, node) && d.verdict == Judge(valid, Some(row), d.op)
    ensures var t := Perform(valid, Some(row), d.op);
            && t.Some? && t.value.version == row.version && t.value.inc == row.inc
            && (!(d.op.Report? && InFamily(d.op.status, row.version, node)) ==> t.value.status == row.status)
  {
  }

  /** Run one after the other, quiet operations leave the greatest of the reported statuses and of
      those seen before. */
  lemma {:induction false} GreatestIsStored(valid: string -> bool, row: Row, ops: seq<Decided>,
                                            seen: set<Status>, node: int)
    requires AllQuiet(ops, row.version, node) && Faithful(valid, Some(row), ops)
    requires IsGreatest(row.status, seen, node)
    requires Distinct(seen + Reports(ops, row.version, node))
    ensures var t := Replay(valid, Some(row), ops);
            && t.Some? && t.value.version == row.version && t.value.inc == row.inc
            && IsGreatest(t.value.status, seen + Reports(ops, row.version, node), node)
    decreases ops
  {
    var all := seen + Reports(ops, row.version, node);
    if ops == [] {
      assert all == seen;
    } else {
      var op := ops[0].op;
      QuietKeepsVersion(valid, row, ops[0], node);
      var isNew := op.Report? && InFamily(op.status, row.version, node);
      var seen' := if isNew then seen + {op.status} else seen;
      assert seen' + Reports(ops[1..], row.version, node) == all;
      if isNew { OneReport(valid, row, op.status, seen, node); }
      GreatestIsStored(valid, Perform(valid, Some(row), op).value, ops[1..], seen', node);
    }
  }

  lemma {:induction false} ReportsOf(ops: seq<Decided>, version: int, node: int, st: Status)
    ensures st in Reports(ops, version, node) <==>
            InFamily(st, version, node) && exists d :: d in multiset(ops) && d.op == Report(st)
  {
    if ops != [] {
      assert ops == [ops[0]] + ops[1..];
      ReportsOf(ops[1..], version, node, st);
    }
  }

  lemma SameReports(a: seq<Decided>, b: seq<Decided>, version: int, node: int)
    requires multiset(a) == multiset(b)
    ensures Reports(a, version, node) == Reports(b, version, node)
  {
    forall st ensures st in Reports(a, version, node) <==> st in Reports(b, version, node) {
      ReportsOf(a, version, node, st);
      ReportsOf(b, version, node, st);
    }
  }

  /** The greatest is one status, so any two orders of delivery agree. */
  lemma OrderIndependent(valid: string -> bool, row: Row, a: seq<Decided>, b: seq<Decided>,
                         seen: set<Status>, node: int)
    requires IsGreatest(row.status, seen, node)
    requires Reports(a, row.version, node) == Reports(b, row.version, node)
    requires Distinct(seen + Reports(a, row.version, node))
    requires AllQuiet(a, row.version, node) && Faithful(valid, Some(row), a)
    requires AllQuiet(b, row.version, node) && Faithful(valid, Some(row), b)
    ensures Replay(valid, Some(row), a).Some? && Replay(valid, Some(row), b).Some?
    ensures Replay(valid, Some(row), a).value.status == Replay(valid, Some(row), b).value.status
  {
    GreatestIsStored(valid, row, a, seen, node);
    GreatestIsStored(valid, row, b, seen, node);
  }

  /** No quiet operation creates the row. */
  lemma {:induction false} QuietIsUndisturbed(cfg: Config, s: State, run: seq<Action>, id: Id,
                                              version: int, node: int)
    requires AllQuiet(InOrder(cfg, s, run, id), version, node)
    ensures Lifecycle.IsUndisturbed(cfg, s, run, id)
    decreases run
  {
    if run != [] {
      var all := InOrder(cfg, s, run, id);
      var rest := InOrder(cfg, Next(cfg, s, run[0]), run[1..], id);
      var d := Decides(cfg, s, run[0], id);
      assert d.Some? ==> all[0] == d.value;
      assert all[if d.Some? then 1 else 0..] == rest;
      QuietIsUndisturbed(cfg, Next(cfg, s, run[0]), run[1..], id, version, node);
    }
  }

  /** Delivered concurrently by any number of replicas, with spec requests and delete requests in
      between that do not change the version, the greatest of all decided reports and of what the
      row held is stored. The row may hold a status of an earlier version, or none. */
  lemma ConcurrentDeliveryConverges(cfg: Config, s: State, run: seq<Action>, id: Id,
                                    seen: set<Status>, node: int)
    requires Good(cfg, s) && IsRun(cfg, s, run) && IsFresh(s, id)
    requires id in s.db.rows && IsGreatest(s.db.rows[id].status, seen, node)
    requires AllQuiet(InOrder(cfg, s, run, id), s.db.rows[id].version, node)
    requires Distinct(seen + Reports(InOrder(cfg, s, run, id), s.db.rows[id].version, node))
    ensures var db' := Exec(cfg, s, run).db;
            && id in db'.rows && db'.rows[id].inc == s.db.rows[id].inc
            && IsGreatest(db'.rows[id].status,
                          seen + Reports(InOrder(cfg, s, run, id), s.db.rows[id].version, node), node)
  {
    var ops := SerialOrder(cfg, s, run, id, Unordered).ops;
    var row := s.db.rows[id];
    QuietIsUndisturbed(cfg, s, run, id, row.version, node);
    FreshIsMatched(s, id);
    Lifecycle.UndisturbedRunsAreCalm(cfg, s, run, id);
    CalmRunsFit(cfg, s, run, id);
    SerializableFrom(cfg, s, run, id);
    SameReports(ops, InOrder(cfg, s, run, id), row.version, node);
    forall i | 0 <= i < |ops| ensures IsQuiet(ops[i], row.version, node) {
      assert ops[i] in multiset(ops);
      assert ops[i] in multiset(InOrder(cfg, s, run, id));
    }
    GreatestIsStored(cfg.valid, row, ops, seen, node);
  }
}
