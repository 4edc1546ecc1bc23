/** Status events: every replica broadcasts each one to its subscribers and then records that it
    did; a periodic pass deletes those that all ready replicas have recorded
    (pkg/controllers/status_controller.go, pkg/dao/event_instance.go, broadcastStatusEvent in
    cmd/maestro/server/event_server.go). */
module StatusPurge {
  import opened Batching

  type Instance = string
  type Mark = (nat, Instance)

  // Which events are recorded for all of a list of instances

  function Elements<T>(s: seq<T>): set<T> { set x | x in s }

  function Recorded(marks: set<Mark>, eid: nat, ids: seq<Instance>): set<Instance>
  {
    set m | m in marks && m.0 == eid && m.1 in ids :: m.1
  }

  /** GetEventsAssociatedWithInstances: the events whose number of distinct recorded instances
      among the given ones is the length of the list. */
  function Associated(marks: set<Mark>, ids: seq<Instance>): set<nat>
  {
    if ids == [] then {} else set m | m in marks && |Recorded(marks, m.0, ids)| == |ids| :: m.0
  }

  ghost predicate NoDuplicates<T>(s: seq<T>) { forall i, j :: 0 <= i < j < |s| ==> s[i] != s[j] }

  lemma {:induction false} DistinctCount<T>(s: seq<T>)
    ensures |Elements(s)| <= |s|
    ensures |Elements(s)| == |s| <==> NoDuplicates(s)
  {
    if s != [] {
      var last, rest := s[|s| - 1], s[..|s| - 1];
      DistinctCount(rest);
      assert Elements(s) == Elements(rest) + {last};
      assert last in Elements(rest) <==> exists i :: 0 <= i < |rest| && s[i] == last;
    }
  }

  lemma SubsetOfSameSize<T>(a: set<T>, b: set<T>)
    requires a <= b && |b| <= |a|
    ensures a == b
  {
    assert |b - a| + |a| == |b|;
  }

  /** An event is selected exactly when the list is not empty, names no instance twice and every
      instance on it has recorded the event. */
  lemma AssociatedMeansAll(marks: set<Mark>, ids: seq<Instance>, eid: nat)
    ensures eid in Associated(marks, ids) <==>
            ids != [] && NoDuplicates(ids) && forall i :: i in ids ==> (eid, i) in marks
  {
    if ids != [] {
      DistinctCount(ids);
      var r := Recorded(marks, eid, ids);
      assert forall i :: i in r <==> i in ids && (eid, i) in marks;
      assert r <= Elements(ids);
      if |r| == |ids| { SubsetOfSameSize(r, Elements(ids)); }
      if forall i :: i in ids ==> (eid, i) in marks {
        assert r == Elements(ids);
        var m := (eid, ids[0]);
        assert m in marks && |Recorded(marks, m.0, ids)| == |Elements(ids)|;
      }
    }
  }

  /** The tables as one pass of syncStatusEvents sees them. */
  class StatusStore {
    const reliable: bool  // no call fails
    var stored: set<nat>
    var marks: set<Mark>

    constructor (reliable: bool, stored: set<nat>, marks: set<Mark>)
      ensures this.reliable == reliable && this.stored == stored && this.marks == marks
    {
      this.reliable, this.stored, this.marks := reliable, stored, marks;
    }

    /** The query, whose rows come in no particular order. */
    method Select(ids: seq<Instance>) returns (list: seq<nat>)
      ensures NoDuplicates(list) && Elements(list) == Associated(marks, ids)
    {
      list := [];
      var todo := Associated(marks, ids);
      while todo != {}
        invariant NoDuplicates(list) && Elements(list) !! todo
        invariant Elements(list) + todo == Associated(marks, ids)
        decreases todo
      {
        var eid :| eid in todo;
        assert Elements(list + [eid]) == Elements(list) + {eid};
        assert forall i :: 0 <= i < |list| ==> list[i] in Elements(list);
        list := list + [eid];
        todo := todo - {eid};
      }
    }

    method DeleteAll(batch: seq<nat>) returns (ok: bool)
      modifies this
      ensures stored == if ok then old(stored) - Elements(batch) else old(stored)
      ensures forall m :: m in marks <==> m in old(marks) && !(ok && m.0 in batch)
      ensures reliable ==> ok
    {
      if reliable { ok := true; } else { ok := *; }
      if ok {
        stored := stored - Elements(batch);
        marks := set m | m in marks && m.0 !in batch;
      }
    }

    /** syncStatusEvents: deletes, batch by batch, the events that all given instances recorded with
        their records, all of them when nothing fails, and never another one. */
    method Sync(ids: seq<Instance>) returns (ok: bool)
      modifies this
      ensures stored <= old(stored) && (reliable ==> ok)
      ensures forall eid :: eid in old(stored) - stored ==>
                ids != [] && forall i :: i in ids ==> (eid, i) in old(marks)
      ensures ok ==> forall eid :: eid in old(stored) ==>
                (eid !in stored <==>
                 ids != [] && NoDuplicates(ids) && forall i :: i in ids ==> (eid, i) in old(marks))
      ensures forall m :: m in marks ==> m in old(marks)
      ensures forall m :: m in old(marks) && m.0 in stored ==> m in marks
    {
      var list := Select(ids);
      var batches := Batches(list, PURGE_BATCH_SIZE);
      var k := 0;
      while k < |batches|
        invariant 0 <= k <= |batches|
        invariant stored == old(stored) - Elements(Flatten(batches[..k]))
        invariant forall m :: m in marks <==> m in old(marks) && m.0 !in Flatten(batches[..k])
        invariant Elements(Flatten(batches[..k])) <= Elements(list)
      {
        ok := DeleteAll(batches[k]);
        if !ok { break; }
        assert batches[..k + 1][..k] == batches[..k];
        assert Flatten(batches[..k + 1]) == Flatten(batches[..k]) + batches[k];
        forall i | 0 <= i < |batches[k]| ensures batches[k][i] in Elements(list) {
          InBatches(batches, k, i);
        }
        k := k + 1;
      }
      ok := k == |batches|;
      assert batches[..|batches|] == batches;
      forall eid
        ensures eid in Associated(old(marks), ids) <==>
                ids != [] && NoDuplicates(ids) && forall i :: i in ids ==> (eid, i) in old(marks)
      {
        AssociatedMeansAll(old(marks), ids, eid);
      }
    }
  }

  // All replicas at work

  datatype Proc =
    | Sending(eid: nat, at: Instance)      // broadcastStatusEvent has what it will broadcast
    | Marking(eid: nat, at: Instance)      // it has broadcast, and records next
    | Asking(ids: seq<Instance>)           // syncStatusEvents has read the ready instances
    | Deleting(ids: seq<Instance>, todo: seq<seq<nat>>)

  // `sent` and `deleted` are history variables: the broadcasts made, and each deleted batch with
  // the ready instances its pass had read.
  datatype State = State(stored: set<nat>, next: nat, ready: set<Instance>, marks: set<Mark>,
                         procs: map<nat, Proc>, nextPid: nat,
                         sent: set<Mark>, deleted: seq<(seq<nat>, seq<Instance>)>)

  const Init := State({}, 0, {}, {}, map[], 0, {}, [])

  datatype Action =
    | Issue                                // a new status event
    | SetReady(ready: set<Instance>)       // heartbeats come and go
    | Forget(at: Instance)                 // a server instance is removed with its records
    | Handle(eid: nat, at: Instance)       // broadcastStatusEvent reads the event and the row
    | Sync(ids: seq<Instance>)             // syncStatusEvents reads the ready instances
    | Go(p: nat, batches: seq<seq<nat>>)
    | End(p: nat)

  ghost predicate Can(s: State, a: Action)
  {
    match a
    case Handle(eid, _) => eid in s.stored
    case Sync(ids) => NoDuplicates(ids) && Elements(ids) == s.ready
    case Go(p, batches) =>
      p in s.procs
      && (s.procs[p].Asking? ==>
            exists list: seq<nat> :: NoDuplicates(list) && Elements(list) == Associated(s.marks, s.procs[p].ids)
                           && Cut(list, PURGE_BATCH_SIZE, batches))
    case End(p) => p in s.procs
    case _ => true
  }

  function Start(s: State, q: Proc): State
  {
    s.(procs := s.procs[s.nextPid := q], nextPid := s.nextPid + 1)
  }

  function Next(s: State, a: Action): State
  {
    match a
    case Issue => s.(stored := s.stored + {s.next}, next := s.next + 1)
    case SetReady(ready) => s.(ready := ready)
    case Forget(at) => s.(ready := s.ready - {at}, marks := (set m | m in s.marks && m.1 != at))
    case Handle(eid, at) => Start(s, Sending(eid, at))
    case Sync(ids) => Start(s, Asking(ids))
    case Go(p, batches) =>
      if p !in s.procs then s
      else
        (match s.procs[p]
         case Sending(eid, at) =>
           s.(sent := s.sent + {(eid, at)}, procs := s.procs[p := Marking(eid, at)])
         case Marking(eid, at) =>
           s.(marks := s.marks + {(eid, at)}, procs := s.procs - {p})
         case Asking(ids) => s.(procs := s.procs[p := Deleting(ids, batches)])
         case Deleting(ids, todo) =>
           if todo == [] then s.(procs := s.procs - {p})
           else s.(stored := s.stored - Elements(todo[0]),
                   marks := (set m | m in s.marks && m.0 !in todo[0]),
                   deleted := s.deleted + [(todo[0], ids)],
                   procs := s.procs[p := Deleting(ids, todo[1..])]))
    case End(p) => s.(procs := s.procs - {p})
  }

  ghost predicate IsRun(s: State, run: seq<Action>)
    decreases run
  {
    run == [] || (Can(s, run[0]) && IsRun(Next(s, run[0]), run[1..]))
  }

  function Exec(s: State, run: seq<Action>): State
    decreases run
  {
    if run == [] then s else Exec(Next(s, run[0]), run[1..])
  }

  ghost predicate AllSent(s: State, eid: nat, ids: seq<Instance>)
  {
    ids != [] && forall i :: i in ids ==> (eid, i) in s.sent
  }

  ghost predicate ProcOk(s: State, q: Proc)
  {
    match q
    case Marking(eid, at) => (eid, at) in s.sent
    case Deleting(ids, todo) =>
      && (forall k :: 0 <= k < |todo| ==> |todo[k]| <= 500)
      && forall k, i :: 0 <= k < |todo| && 0 <= i < |todo[k]| ==> AllSent(s, todo[k][i], ids)
    case Sending(eid, _) => eid < s.next
    case _ => true
  }

  ghost predicate Good(s: State)
  {
    && s.marks <= s.sent && (forall m :: m in s.sent ==> m.0 < s.next)
    && (forall p :: p in s.procs ==> ProcOk(s, s.procs[p]))
    && (forall i, eid :: 0 <= i < |s.deleted| && eid in s.deleted[i].0 ==>
          AllSent(s, eid, s.deleted[i].1))
    && (forall eid: nat :: eid in s.stored <==> eid < s.next && !WasDeleted(s, eid))
  }

  ghost predicate WasDeleted(s: State, eid: nat)
  {
    exists i :: 0 <= i < |s.deleted| && eid in s.deleted[i].0
  }

  lemma {:induction false} InBatches<T>(batches: seq<seq<T>>, k: nat, i: nat)
    requires k < |batches| && i < |batches[k]|
    ensures batches[k][i] in Flatten(batches)
  {
    if k < |batches| - 1 { InBatches(batches[..|batches| - 1], k, i); }
  }

  /** The batches of a pass hold only what all the instances it asked about have broadcast. */
  lemma AskedFor(s: State, p: nat, batches: seq<seq<nat>>)
    requires Good(s) && Can(s, Go(p, batches)) && s.procs[p].Asking?
    ensures forall k :: 0 <= k < |batches| ==> |batches[k]| <= 500
    ensures forall k, i :: 0 <= k < |batches| && 0 <= i < |batches[k]| ==>
              AllSent(s, batches[k][i], s.procs[p].ids)
  {
    var ids := s.procs[p].ids;
    var list: seq<nat> :| NoDuplicates(list) && Elements(list) == Associated(s.marks, ids)
                && Cut(list, PURGE_BATCH_SIZE, batches);
    forall k, i | 0 <= k < |batches| && 0 <= i < |batches[k]|
      ensures AllSent(s, batches[k][i], ids)
    {
      InBatches(batches, k, i);
      assert batches[k][i] in Elements(list);
      AssociatedMeansAll(s.marks, ids, batches[k][i]);
    }
  }

  /** The first batch of a deleting pass leaves the table, and nothing else does. */
  lemma DeleteKeepsTable(s: State, p: nat, batches: seq<seq<nat>>, eid: nat)
    requires Good(s) && p in s.procs && s.procs[p].Deleting? && s.procs[p].todo != []
    ensures var s' := Next(s, Go(p, batches));
            eid in s'.stored <==> eid < s'.next && !WasDeleted(s', eid)
  {
    var s' := Next(s, Go(p, batches));
    assert s'.deleted[|s.deleted|].0 == s.procs[p].todo[0];
    assert forall i :: 0 <= i < |s.deleted| ==> s'.deleted[i] == s.deleted[i];
    assert WasDeleted(s', eid) <==> WasDeleted(s, eid) || eid in s.procs[p].todo[0];
  }

  /** The number an event is issued under is new. */
  lemma IssueKeepsTable(s: State, eid: nat)
    requires Good(s)
    ensures var s' := Next(s, Issue);
            eid in s'.stored <==> eid < s'.next && !WasDeleted(s', eid)
  {
    assert WasDeleted(Next(s, Issue), eid) <==> WasDeleted(s, eid);
    forall ids ensures !AllSent(s, s.next, ids) {
      if ids != [] { assert (s.next, ids[0]) !in s.sent; }
    }
  }

  lemma StepKeepsTable(s: State, a: Action, eid: nat)
    requires Good(s) && Can(s, a)
    ensures var s' := Next(s, a);
            eid in s'.stored <==> eid < s'.next && !WasDeleted(s', eid)
  {
    if a.Issue? {
      IssueKeepsTable(s, eid);
    } else if a.Go? && s.procs[a.p].Deleting? && s.procs[a.p].todo != [] {
      DeleteKeepsTable(s, a.p, a.batches, eid);
    } else {
      assert WasDeleted(Next(s, a), eid) <==> WasDeleted(s, eid);
    }
  }

  lemma StepKeepsGood(s: State, a: Action)
    requires Good(s) && Can(s, a)
    ensures Good(Next(s, a))
  {
    var s' := Next(s, a);
    assert s.sent <= s'.sent;
    if a.Go? && s.procs[a.p].Asking? { AskedFor(s, a.p, a.batches); }
    forall eid: nat ensures eid in s'.stored <==> eid < s'.next && !WasDeleted(s', eid) {
      StepKeepsTable(s, a, eid);
    }
  }

  lemma {:induction false} RunKeepsGood(s: State, run: seq<Action>)
    requires Good(s) && IsRun(s, run)
    ensures Good(Exec(s, run))
    decreases run
  {
    if run != [] {
      StepKeepsGood(s, run[0]);
      RunKeepsGood(Next(s, run[0]), run[1..]);
    }
  }

  /** In every run an issued status event is stored until some pass deletes it, and no other is. */
  lemma StoredUntilDeleted(run: seq<Action>, eid: nat)
    requires IsRun(Init, run)
    ensures var s := Exec(Init, run);
            eid in s.stored <==>
            eid < s.next && forall i :: 0 <= i < |s.deleted| ==> eid !in s.deleted[i].0
  {
    RunKeepsGood(Init, run);
  }

  /** In every run a step after which a status event is no longer stored is one of a deleting pass
      whose next batch holds the event, and every instance the pass had read as ready, of which there
      is one, has broadcast that event. */
  lemma PurgeIsSafe(run: seq<Action>, a: Action, eid: nat)
    requires IsRun(Init, run) && Can(Exec(Init, run), a)
    requires eid in Exec(Init, run).stored && eid !in Next(Exec(Init, run), a).stored
    ensures var s := Exec(Init, run);
            && a.Go? && a.p in s.procs && s.procs[a.p].Deleting?
            && s.procs[a.p].todo != [] && eid in s.procs[a.p].todo[0] && |s.procs[a.p].todo[0]| <= 500
            && s.procs[a.p].ids != []
            && forall i :: i in s.procs[a.p].ids ==> (eid, i) in s.sent
  {
    RunKeepsGood(Init, run);
    var s := Exec(Init, run);
    var q := s.procs[a.p];
    var i :| 0 <= i < |q.todo[0]| && q.todo[0][i] == eid;
    assert ProcOk(s, q) && AllSent(s, q.todo[0][i], q.ids);
  }

  /** Who records what: a record appears when the instance that has broadcast the event writes it, and
      goes when the event is deleted or the instance is removed. A broadcast is made by the process
      that took the event, from the table, to that instance. */
  lemma RecordsIff(s: State, a: Action, m: Mark)
    requires Can(s, a)
    ensures m in Next(s, a).marks <==>
            || (a.Go? && s.procs[a.p] == Marking(m.0, m.1))
            || (m in s.marks && a != Forget(m.1)
                && !(a.Go? && s.procs[a.p].Deleting? && s.procs[a.p].todo != [] && m.0 in s.procs[a.p].todo[0]))
    ensures m in Next(s, a).sent <==> m in s.sent || (a.Go? && s.procs[a.p] == Sending(m.0, m.1))
  {}
}
