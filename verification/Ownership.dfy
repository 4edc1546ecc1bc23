/** Resynchronisation of gained consumers, step by step: the goroutine that updates the consumer
    set, the rate limited work queue and the ten resync workers interleave freely
    (pkg/dispatcher/hash_dispatcher.go). */
module Ownership {

  datatype State = State(
    owned: set<string>,       // the consumer set
    adding: set<string>,      // consumers the running update has queued and not yet added to it
    dirty: set<string>,       // work queue: to be processed
    waiting: set<string>,     // work queue: to be added again after a delay
    processing: set<string>,  // a worker is sending the resync request
    finishing: set<string>,   // a worker has the answer and has not called Done yet
    // History: resyncs in progress that began after the latest gain and consumers resynchronised by
    // such a one, resyncs in progress that began after the consumer joined the consumer set and
    // consumers resynchronised by such a one.
    current: set<string>, settled: set<string>, late: set<string>, heard: set<string>)

  function Init(): State
  {
    State({}, {}, {}, {}, {}, {}, {}, {}, {}, {})
  }

  datatype Action =
    | Gain(consumer: string)        // workQueue.Add, by the update
    | Commit(lost: set<string>)     // consumerSet.Append and RemoveAll, by the update
    | Get(consumer: string)         // workQueue.Get, by a worker
    | Answer(consumer: string, ok: bool)
    | Finish(consumer: string)      // workQueue.Done
    | Retry(consumer: string)       // the delay of AddRateLimited is over

  predicate Can(s: State, a: Action)
  {
    match a
    case Gain(c) => c !in s.owned
    case Commit(lost) => lost <= s.owned
    case Get(c) => c in s.dirty && c !in s.processing && c !in s.finishing
    case Answer(c, _) => c in s.processing
    case Finish(c) => c in s.finishing
    case Retry(c) => c in s.waiting
  }

  function Next(s: State, a: Action): State
  {
    match a
    case Gain(c) =>
      s.(adding := s.adding + {c}, dirty := s.dirty + {c},
      current := s.current - {c}, settled := s.settled - {c})
    case Commit(lost) =>
      s.(owned := s.owned + s.adding - lost, adding := {}, late := s.late - s.adding, heard := s.heard - s.adding)
    case Get(c) =>
      s.(dirty := s.dirty - {c}, processing := s.processing + {c}, current := s.current + {c},
      late := if c in s.owned then s.late + {c} else s.late - {c})
    case Answer(c, ok) =>
      s.(processing := s.processing - {c}, finishing := s.finishing + {c},
      waiting := if ok then s.waiting else s.waiting + {c},
      settled := if ok && c in s.current then s.settled + {c} else s.settled,
      heard := if ok && c in s.late then s.heard + {c} else s.heard)
    case Finish(c) => s.(finishing := s.finishing - {c})
    case Retry(c) => s.(waiting := s.waiting - {c}, dirty := s.dirty + {c})
  }

  predicate IsRun(s: State, run: seq<Action>)
    decreases run
  {
    run == [] || (Can(s, run[0]) && IsRun(Next(s, run[0]), run[1..]))
  }

  function Exec(s: State, run: seq<Action>): State
    decreases run
  {
    if run == [] then s else Exec(Next(s, run[0]), run[1..])
  }

  /** The consumer an action of the queue is about. */
  predicate Concerns(a: Action, c: string) { !a.Commit? && a.consumer == c }

  /** What happens to one consumer in one step. It joins or leaves the consumer set with the update
      alone, and joins only when this update gained it. It becomes due by a gain or a retry and stops
      being due when a worker takes it, which no worker does while another one has it. A failed resync
      is retried, and everything else is left alone. */
  lemma OneConsumer(s: State, a: Action, c: string)
    requires Can(s, a)
    ensures c in Next(s, a).owned <==>
            if a.Commit? then (c in s.owned || c in s.adding) && c !in a.lost else c in s.owned
    ensures c in Next(s, a).adding <==> !a.Commit? && (c in s.adding || a == Gain(c))
    ensures c in Next(s, a).dirty <==> (c in s.dirty && a != Get(c)) || a == Gain(c) || a == Retry(c)
    ensures c in Next(s, a).waiting <==> (c in s.waiting && a != Retry(c)) || a == Answer(c, false)
    ensures c in Next(s, a).processing <==> (c in s.processing && !(a.Answer? && a.consumer == c)) || a == Get(c)
    ensures c in Next(s, a).finishing <==> (c in s.finishing && a != Finish(c)) || (a.Answer? && a.consumer == c)
    ensures a == Get(c) ==> c !in s.processing && c !in s.finishing
    ensures !a.Commit? && !Concerns(a, c) ==>
              && (c in Next(s, a).settled <==> c in s.settled) && (c in Next(s, a).heard <==> c in s.heard)
  {}

  /** One worker at a time: a consumer that is being sent has no other request waiting for its end. */
  lemma {:induction false} OneWorkerPerConsumer(s: State, run: seq<Action>)
    requires s.processing !! s.finishing && IsRun(s, run)
    ensures Exec(s, run).processing !! Exec(s, run).finishing
    decreases run
  {
    if run != [] { OneWorkerPerConsumer(Next(s, run[0]), run[1..]); }
  }

  /** Gained consumers are resynchronised by a request that begins after the gain, sooner or later. */
  ghost predicate Good(s: State)
  {
    && s.adding !! s.owned
    && forall c :: c in s.owned + s.adding ==>
         || c in s.settled
         || c in s.dirty || c in s.waiting || (c in s.processing && c in s.current)
  }

  lemma StepKeepsGood(s: State, a: Action)
    requires Good(s) && Can(s, a)
    ensures Good(Next(s, a))
  {}

  /** In every reachable state each consumer of the replica has been resynchronised since it was
      gained, or such a resync is queued, delayed or in progress since the gain. */
  lemma {:induction false} GainedAreResynced(s: State, run: seq<Action>, c: string)
    requires Good(s) && IsRun(s, run)
    requires c in Exec(s, run).owned
    ensures var t := Exec(s, run);
            c in t.settled || c in t.dirty || c in t.waiting || (c in t.processing && c in t.current)
    decreases run
  {
    if run != [] {
      StepKeepsGood(s, run[0]);
      GainedAreResynced(Next(s, run[0]), run[1..], c);
    }
  }

  // The answers to a resync reach a replica only for consumers in its set. Whether a consumer is
  // resynchronised after it JOINED the set is another matter, since it is queued before it joins.

  /** A resync of the consumer is still to begin. */
  predicate IsQueued(s: State, c: string) { c in s.dirty || c in s.waiting }

  /** Every consumer of the set was resynchronised by a request that began after it joined, or such a
      request is to begin or in progress. */
  ghost predicate Covered(s: State)
  {
    forall c :: c in s.owned ==> c in s.heard || IsQueued(s, c) || (c in s.processing && c in s.late)
  }

  /** Nothing that is about to join has had its request begun already. */
  predicate IsTimely(s: State, a: Action)
  {
    a.Commit? ==> forall c :: c in s.adding ==> IsQueued(s, c)
  }

  /** A step keeps every consumer covered if and only if it adds none whose resync has begun. */
  lemma CoveredIff(s: State, a: Action)
    requires Good(s) && Can(s, a) && Covered(s)
    ensures Covered(Next(s, a)) <==> IsTimely(s, a)
  {
    var t := Next(s, a);
    if a.Commit? {
      forall c | c in s.adding
        ensures c in t.owned && c !in t.heard && c !in t.late && IsQueued(t, c) == IsQueued(s, c)
      {}
    }
  }

  ghost predicate AreTimely(s: State, run: seq<Action>)
    decreases run
  {
    run == [] || (IsTimely(s, run[0]) && AreTimely(Next(s, run[0]), run[1..]))
  }

  /** Over runs whose updates are timely, every consumer of the set has been resynchronised since it
      joined, or such a resync is pending. */
  lemma {:induction false} JoinedAreResynced(s: State, run: seq<Action>)
    requires Good(s) && Covered(s) && IsRun(s, run) && AreTimely(s, run)
    ensures Covered(Exec(s, run))
    decreases run
  {
    if run != [] {
      StepKeepsGood(s, run[0]);
      CoveredIff(s, run[0]);
      JoinedAreResynced(Next(s, run[0]), run[1..]);
    }
  }

  ghost predicate AlwaysCovered(s: State, run: seq<Action>)
    decreases run
  {
    Covered(s) && (run == [] || AlwaysCovered(Next(s, run[0]), run[1..]))
  }

  /** Every consumer is covered all along a run if and only if its updates are timely. */
  lemma {:induction false} AlwaysCoveredIff(s: State, run: seq<Action>)
    requires Good(s) && Covered(s) && IsRun(s, run)
    ensures AlwaysCovered(s, run) <==> AreTimely(s, run)
    decreases run
  {
    if run != [] {
      StepKeepsGood(s, run[0]);
      CoveredIff(s, run[0]);
      if Covered(Next(s, run[0])) { AlwaysCoveredIff(Next(s, run[0]), run[1..]); }
    }
  }

  /** A worker can be done with a consumer before it joins: it then stays in the set with no
      resync since, and none to come. */
  lemma ResyncCanComeTooEarly(c: string)
    ensures var run := [Gain(c), Get(c), Answer(c, true), Finish(c), Commit({})];
            && IsRun(Init(), run)
            && c in Exec(Init(), run).owned
            && c !in Exec(Init(), run).heard && !IsQueued(Exec(Init(), run), c)
            && c !in Exec(Init(), run).processing
  {
    var s0 := Init();
    var s1 := Next(s0, Gain(c));
    var s2 := Next(s1, Get(c));
    var s3 := Next(s2, Answer(c, true));
    var s4 := Next(s3, Finish(c));
    var s5 := Next(s4, Commit({}));
    var run := [Gain(c), Get(c), Answer(c, true), Finish(c), Commit({})];
    assert run[1..] == [Get(c), Answer(c, true), Finish(c), Commit({})];
    assert run[1..][1..] == [Answer(c, true), Finish(c), Commit({})];
    assert run[1..][1..][1..] == [Finish(c), Commit({})];
    assert run[1..][1..][1..][1..] == [Commit({})];
    assert IsRun(s4, [Commit({})]) && Exec(s4, [Commit({})]) == s5;
    assert IsRun(s3, [Finish(c), Commit({})]) && Exec(s3, [Finish(c), Commit({})]) == s5;
    assert IsRun(s2, run[1..][1..]) && Exec(s2, run[1..][1..]) == s5;
  }
}
