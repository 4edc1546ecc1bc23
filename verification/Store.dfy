/** The tables the replicas share and the statements the data access layer runs on them
    (pkg/dao/resource.go, pkg/dao/event.go). Every statement is atomic. */
module Store {
  import opened Wrappers
  import SequenceIds

  type Id = string

  // The sequence number and the resource version travel inside the reported status.
  datatype Status = Status(version: int, seqId: string, body: string)

  // `inc` numbers the incarnations of all rows: an identifier that is hard deleted and created
  // again gets a new one. It is a history variable, no statement reads it.
  datatype Row = Row(inc: nat, consumer: string, version: int, payload: string,
                     status: Option<Status>, createdAt: nat, deletedAt: Option<nat>)
  {
    predicate Live() { deletedAt.None? }
  }

  datatype Kind = CreateEvent | UpdateEvent | DeleteEvent

  // History variables: `cause` is the incarnation whose deletion a delete event announces, and
  // `revived` tells that the row was put back after it had been purged.
  datatype Event = Event(sourceId: Id, kind: Kind, createdAt: nat, reconciled: bool,
                         cause: Option<nat>, revived: bool)

  // `issued` keeps every event ever inserted as it was inserted, and is a history variable too.
  datatype Db = Db(clock: nat, rows: map<Id, Row>, events: map<nat, Event>,
                   nextInc: nat, nextEvent: nat, issued: map<nat, Event>)
  {
    function Find(id: Id): Option<Row> { if id in rows then Some(rows[id]) else None }

    predicate IsDeleteOf(eid: nat, id: Id)
    {
      eid in events && events[eid].kind.DeleteEvent? && events[eid].sourceId == id
    }

    function DeletesOf(id: Id): set<nat> { set eid | eid in events && IsDeleteOf(eid, id) }
  }

  const Empty := Db(0, map[], map[], 0, 0, map[])

  // Resource rows

  function NewRow(inc: nat, consumer: string, version: int, payload: string, at: nat): Row
  {
    Row(inc, consumer, if version == 0 then 1 else version, payload, None, at, None)
  }

  function AddRow(db: Db, id: Id, consumer: string, version: int, payload: string): Db
  {
    db.(rows := db.rows[id := NewRow(db.nextInc, consumer, version, payload, db.clock)],
        nextInc := db.nextInc + 1)
  }

  // An update that matches no row is not an error.
  function SetSpec(db: Db, id: Id, version: int, payload: string): Db
  {
    if id !in db.rows then db
    else db.(rows := db.rows[id := db.rows[id].(version := version, payload := payload)])
  }

  function SetStatus(db: Db, id: Id, status: Status): Db
  {
    if id !in db.rows then db
    else db.(rows := db.rows[id := db.rows[id].(status := Some(status))])
  }

  // A soft delete stamps live rows only.
  function SoftDelete(db: Db, id: Id): Db
  {
    if id !in db.rows || !db.rows[id].Live() then db
    else db.(rows := db.rows[id := db.rows[id].(deletedAt := Some(db.clock))])
  }

  function HardDelete(db: Db, id: Id): Db { db.(rows := db.rows - {id}) }

  // Event rows

  function AddEvent(db: Db, id: Id, kind: Kind, cause: Option<nat>): Db
  {
    var event := Event(id, kind, db.clock, false, cause, false);
    db.(events := db.events[db.nextEvent := event], issued := db.issued[db.nextEvent := event],
        nextEvent := db.nextEvent + 1)
  }

  // Saving a whole event row updates it, or inserts it when it is no longer stored.
  function SaveReconciled(db: Db, eid: nat, event: Event): Db
  {
    var revived := event.revived || eid !in db.events || db.events[eid].revived;
    db.(events := db.events[eid := event.(reconciled := true, revived := revived)])
  }

  function PurgeReconciled(db: Db): Db
  {
    db.(events := map eid | eid in db.events && !db.events[eid].reconciled :: db.events[eid])
  }

  const BATCH_SIZE := 10000

  predicate IsStale(db: Db, eid: nat, cutoff: int)
  {
    && eid in db.events
    && var e := db.events[eid];
    && e.kind.DeleteEvent? && !e.reconciled && e.createdAt < cutoff
    && e.sourceId in db.rows
    && db.rows[e.sourceId].deletedAt.Some?
    && db.rows[e.sourceId].deletedAt.value < cutoff
  }

  function StaleEvents(db: Db, cutoff: int): set<nat>
  {
    set eid | eid in db.events && IsStale(db, eid, cutoff)
  }

  /** What a bounded, unordered selection of the stale events can be. */
  ghost predicate IsBatch(db: Db, cutoff: int, picked: set<nat>)
  {
    && picked <= StaleEvents(db, cutoff)
    && (|picked| < BATCH_SIZE ==> picked == StaleEvents(db, cutoff))
    && |picked| <= BATCH_SIZE
  }

  function Retire(db: Db, picked: set<nat>): Db
  {
    db.(events := map eid | eid in db.events ::
      if eid in picked then db.events[eid].(reconciled := true) else db.events[eid])
  }

  predicate HasPending(db: Db, id: Id)
  {
    exists eid :: eid in db.events && db.events[eid].sourceId == id && !db.events[eid].reconciled
  }

  /** FindUndelivered: live, without any status, older than the cutoff, of a known consumer, and
      with no event under way. */
  predicate IsUndelivered(db: Db, consumers: set<string>, cutoff: int, id: Id)
  {
    && id in db.rows && db.rows[id].Live() && db.rows[id].status.None?
    && db.rows[id].createdAt < cutoff && db.rows[id].consumer in consumers
    && !HasPending(db, id)
  }

  /** The creation time of the latest stored delete event of a resource. */
  ghost predicate IsLatestDelete(db: Db, id: Id, latest: Option<nat>)
  {
    match latest
    case None => db.DeletesOf(id) == {}
    case Some(t) =>
      && (exists eid :: db.IsDeleteOf(eid, id) && db.events[eid].createdAt == t)
      && (forall eid :: db.IsDeleteOf(eid, id) ==> db.events[eid].createdAt <= t)
  }

  /** Spec, status and mark are columns of their own: writes to them commute. */
  lemma ColumnsCommute(db: Db, id: Id, version: int, payload: string, status: Status)
    ensures SetStatus(SetSpec(db, id, version, payload), id, status)
         == SetSpec(SetStatus(db, id, status), id, version, payload)
    ensures SoftDelete(SetStatus(db, id, status), id) == SetStatus(SoftDelete(db, id), id, status)
    ensures SoftDelete(SetSpec(db, id, version, payload), id)
         == SetSpec(SoftDelete(db, id), id, version, payload)
  {}

  // One row under the operations of the resource service (pkg/services/resource.go)

  datatype Verdict = NotFound | Deleting | Stale | Same | Invalid | Refused | Older | Accept

  datatype Op =
    | Create(inc: nat, consumer: string, version: int, payload: string, at: nat)
    | Update(want: int, payload: string)
    | MarkDeleting(at: nat)
    | Report(status: Status)
    | Drop

  /** How each operation decides, from the row it reads. */
  function Judge(valid: string -> bool, found: Option<Row>, op: Op): Verdict
  {
    match op
    case Create(_, _, _, payload, _) =>
      if !valid(payload) then Invalid else if found.Some? then Refused else Accept
    case Update(want, payload) =>
      if found.None? then NotFound
      else if !found.value.Live() then Deleting
      else if found.value.version != want then Stale
      else if payload == found.value.payload then Same
      else if !valid(payload) then Invalid
      else Accept
    case MarkDeleting(_) =>
      if found.None? then NotFound else if !found.value.Live() then Deleting else Accept
    case Report(status) =>
      if found.None? then NotFound
      else if found.value.version != status.version then Stale
      else if found.value.status == Some(status) then Same
      else
        var stored := if found.value.status.Some? then found.value.status.value.seqId else "";
        (match SequenceIds.Compare(status.seqId, stored)
         case Err => Refused
         case Ok(newer) => if newer then Accept else Older)
    case Drop => Accept  // removing a missing row is no error
  }

  /** The row an accepted operation leaves. */
  function Effect(found: Option<Row>, op: Op): Option<Row>
  {
    match op
    case Create(inc, consumer, version, payload, at) =>
      Some(NewRow(inc, consumer, version, payload, at))
    case Drop => None
    case _ =>
      if found.None? then None
      else
        match op
        case Update(want, payload) => Some(found.value.(version := want + 1, payload := payload))
        case MarkDeleting(at) => Some(found.value.(deletedAt := Some(at)))
        case Report(status) => Some(found.value.(status := Some(status)))
        case _ => found
  }

  /** A whole operation run alone. */
  function Perform(valid: string -> bool, found: Option<Row>, op: Op): Option<Row>
  {
    if Judge(valid, found, op).Accept? then Effect(found, op) else found
  }
}
