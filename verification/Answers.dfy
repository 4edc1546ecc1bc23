/** What the calls of the resource service answer and what they leave in the tables, in terms of the
    columns alone. */
module Answers {
  import opened Wrappers
  import opened Store
  import opened Service
  import SequenceIds

  /** The one event added between two tables, as it was inserted. */
  ghost predicate Announced(before: Db, after: Db, id: Id, kind: Kind)
  {
    && before.nextEvent in after.events && after.nextEvent == before.nextEvent + 1
    && after.events[before.nextEvent].sourceId == id && after.events[before.nextEvent].kind == kind
    && after.events[before.nextEvent].createdAt == before.clock
    && !after.events[before.nextEvent].reconciled
    && (forall eid :: eid != before.nextEvent ==> (eid in after.events <==> eid in before.events))
    && (forall eid :: eid != before.nextEvent && eid in before.events ==> after.events[eid] == before.events[eid])
  }

  /** No row but the one of the given identifier is touched. */
  ghost predicate OthersKept(before: Db, after: Db, id: Id)
  {
    && after.clock == before.clock
    && (forall other :: other != id ==> (other in after.rows <==> other in before.rows))
    && (forall other :: other != id && other in before.rows ==> after.rows[other] == before.rows[other])
  }

  /** A creation is refused for the name first, then for the payload, then for the identifier. */
  lemma CreateAnswers(valid: string -> bool, before: Db, after: Db, r: Reply, named: bool,
                      id: Id, consumer: string, version: int, payload: string)
    requires Created(valid, before, after, r, named, id, consumer, version, payload) && r.Replied?
    ensures r.verdict == Invalid <==> !named || !valid(payload)
    ensures r.verdict == Refused <==> named && valid(payload) && id in before.rows
    ensures r.verdict == Accept <==> named && valid(payload) && id !in before.rows
    ensures r.verdict != Accept ==> after == before
    ensures r.verdict == Accept ==>
              && id in after.rows && OthersKept(before, after, id) && Announced(before, after, id, CreateEvent)
              && after.rows[id].consumer == consumer && after.rows[id].payload == payload
              && after.rows[id].version == (if version != 0 then version else 1)
              && after.rows[id].createdAt == before.clock && after.rows[id].status == None
              && after.rows[id].deletedAt == None
  {}

  /** An update is accepted for a live row of the expected version with another, valid payload. Each
      refusal has its own condition, after those before it. */
  lemma UpdateAnswers(valid: string -> bool, before: Db, after: Db, r: Reply,
                      id: Id, want: int, payload: string)
    requires Updated(valid, before, after, r, id, want, payload) && r.Replied?
    ensures r.verdict == NotFound <==> id !in before.rows
    ensures r.verdict == Deleting <==> id in before.rows && before.rows[id].deletedAt != None
    ensures r.verdict == Stale <==>
            id in before.rows && before.rows[id].deletedAt == None && before.rows[id].version != want
    ensures r.verdict == Same <==>
            && id in before.rows && before.rows[id].deletedAt == None && before.rows[id].version == want
            && before.rows[id].payload == payload
    ensures r.verdict == Invalid <==>
            && id in before.rows && before.rows[id].deletedAt == None && before.rows[id].version == want
            && before.rows[id].payload != payload && !valid(payload)
    ensures r.verdict == Accept <==>
            && id in before.rows && before.rows[id].deletedAt == None && before.rows[id].version == want
            && before.rows[id].payload != payload && valid(payload)
    ensures r.verdict != Accept ==> after == before
    ensures r.verdict == Accept ==>
              && id in after.rows && OthersKept(before, after, id) && Announced(before, after, id, UpdateEvent)
              && after.rows[id].version == want + 1 && after.rows[id].payload == payload
              && after.rows[id].(version := want, payload := before.rows[id].payload) == before.rows[id]
  {}

  /** The stored sequence number, empty without a status. */
  function StoredId(row: Row): string { if row.status == None then "" else row.status.value.seqId }

  /** Both are numbers of the same node. */
  predicate AreComparable(a: string, b: string)
  {
    && SequenceIds.Parse(a).Some? && SequenceIds.Parse(b).Some?
    && SequenceIds.Node(SequenceIds.Parse(a).value) == SequenceIds.Node(SequenceIds.Parse(b).value)
  }

  /** The report is about the version of the row and not what is stored already. */
  predicate IsNews(db: Db, id: Id, status: Status)
  {
    id in db.rows && db.rows[id].version == status.version && db.rows[id].status != Some(status)
  }

  /** A status is written over none when it has a sequence number at all, and over another one when the
      two numbers are of one node and its own is greater. Marked rows take reports too. */
  lemma ReportAnswers(valid: string -> bool, before: Db, after: Db, r: Reply, updated: bool,
                      id: Id, status: Status)
    requires Reported(valid, before, after, r, updated, id, status) && r.Replied?
    ensures r.verdict == NotFound <==> id !in before.rows
    ensures r.verdict == Stale <==> id in before.rows && before.rows[id].version != status.version
    ensures r.verdict == Same <==>
            && id in before.rows && before.rows[id].version == status.version
            && before.rows[id].status == Some(status)
    ensures r.verdict == Accept <==>
            && IsNews(before, id, status)
            && var stored := StoredId(before.rows[id]);
               if stored == "" then status.seqId != ""
               else AreComparable(status.seqId, stored)
                    && SequenceIds.Parse(status.seqId).value > SequenceIds.Parse(stored).value
    ensures r.verdict == Older <==>
            && IsNews(before, id, status)
            && var stored := StoredId(before.rows[id]);
               stored != "" && AreComparable(status.seqId, stored)
               && SequenceIds.Parse(status.seqId).value <= SequenceIds.Parse(stored).value
    ensures r.verdict == Refused <==>
            && IsNews(before, id, status)
            && var stored := StoredId(before.rows[id]);
               if stored == "" then status.seqId == "" else !AreComparable(status.seqId, stored)
    ensures updated <==> r.verdict == Accept
    ensures !updated ==> after == before
    ensures updated ==>
              && id in after.rows && OthersKept(before, after, id) && after.events == before.events
              && after.rows[id].status == Some(status)
              && after.rows[id].(status := before.rows[id].status) == before.rows[id]
  {
    assert SequenceIds.Parse("").None?;
    if IsNews(before, id, status) {
      var stored := StoredId(before.rows[id]);
      if stored != "" || status.seqId == "" { SequenceIds.CompareIsIntegerOrder(status.seqId, stored); }
    }
  }

  predicate IsDelete(db: Db, eid: nat, id: Id)
  {
    eid in db.events && db.events[eid].kind == DeleteEvent && db.events[eid].sourceId == id
  }

  /** A live row is marked with the time of the call and announced; a missing one is not found; a marked
      one stays as it is and is announced again only when its delete events are old enough. */
  lemma DeleteAnswers(valid: string -> bool, interval: int, before: Db, after: Db, r: Reply, id: Id)
    requires Marked(valid, interval, before, after, r, id) && !r.DbError?
    ensures r == Replied(NotFound) <==> id !in before.rows
    ensures r == Replied(Accept) <==> id in before.rows && before.rows[id].deletedAt == None
    ensures r == Disabled <==> id in before.rows && before.rows[id].deletedAt != None && interval <= 0
    ensures r == Republished ==>
              forall eid :: IsDelete(before, eid, id) ==> before.clock - before.events[eid].createdAt >= interval
    ensures r.Throttled? ==>
              && before.clock - r.latest < interval
              && exists eid :: IsDelete(before, eid, id) && before.events[eid].createdAt == r.latest
    ensures r == Replied(Accept) ==>
              && id in after.rows && OthersKept(before, after, id) && Announced(before, after, id, DeleteEvent)
              && after.rows[id].deletedAt == Some(before.clock)
              && after.rows[id].(deletedAt := None) == before.rows[id]
    ensures r == Republished ==> after.rows == before.rows && Announced(before, after, id, DeleteEvent)
    ensures r != Replied(Accept) && r != Republished ==> after == before
  {
    if r == Republished {
      forall eid | IsDelete(before, eid, id)
        ensures before.clock - before.events[eid].createdAt >= interval
      {
        assert before.IsDeleteOf(eid, id);
      }
    } else if r.Throttled? {
      var eid :| before.IsDeleteOf(eid, id) && before.events[eid].createdAt == r.latest;
      assert IsDelete(before, eid, id);
    }
  }
}
