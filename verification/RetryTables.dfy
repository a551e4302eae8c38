/** The two tables of the MRF centre and the operations of MRFMessageProcessService on them, as
    the DAO implementations and their SQL carry them out. */
module RetryTables {
  import opened Wrappers

  type MsgId = int

  datatype Payload = Payload(queue: string, msg: string, interval: int, retried: int, maxRetries: int)

  datatype RetryState = ToRetry | InRetry

  /** A row of interval_retry. */
  datatype Retry = Retry(payload: Payload, state: RetryState, nextExecAt: int)

  /** A row of recover; checked out while it is being recovered. */
  datatype Recover = Recover(payload: Payload, checkedOut: bool)

  /** msg_id is a unique index of each table. */
  datatype Db = Db(retries: map<MsgId, Retry>, recovers: map<MsgId, Recover>)

  datatype Message = Message(msgId: MsgId, payload: Payload)

  /** `isIntervalRetryValid` and `isRecoverValid`. */
  predicate Storable(id: MsgId, p: Payload) {
    id > 0 && p.queue != "" && p.msg != ""
  }

  /** What the service is asked to do; `newId` is what GlobalMessageIdGenerator gives out. */
  datatype Op =
    | CleanRecover(id: MsgId)                              // also the manual delete
    | CleanIntervalRetry(id: MsgId)
    | ResendForRecover(id: MsgId)
    | DoIntervalMessageRetry(m: Message, now: int, newId: MsgId)
    | DoIntervalMessageRecover(m: Message)
    | DoImmediateMessageRecover(m: Message, newId: MsgId)
    | DoMessageDirectToRecover(m: Message, newId: MsgId)
    | CheckOutRetry(id: MsgId)
    | CheckOutRecover(id: MsgId)
    | HouseKeep(batch: map<MsgId, Payload>)                // the rows as they were queried

  function NeverRetried(p: Payload): Payload {
    p.(interval := -1, retried := -1, maxRetries := -1)
  }

  /** A DAO call either commits or throws, and then its transaction is rolled back. */
  datatype Outcome = Committed(db: Db) | Thrown

  // ---- the DAO calls ----

  function InsertRetry(db: Db, id: MsgId, row: Retry): Outcome {
    if !Storable(id, row.payload) then Committed(db)
    else if id in db.retries then Thrown
    else Committed(db.(retries := db.retries[id := row]))
  }

  function InsertRecover(db: Db, id: MsgId, p: Payload): Outcome {
    if !Storable(id, p) then Committed(db)
    else if id in db.recovers then Thrown
    else Committed(db.(recovers := db.recovers[id := Recover(p, false)]))
  }

  function CheckInRetry(db: Db, id: MsgId, row: Retry): Db {
    if Storable(id, row.payload) && id in db.retries then db.(retries := db.retries[id := row]) else db
  }

  function DeleteRetry(db: Db, id: MsgId): Db {
    if id <= 0 then db else db.(retries := db.retries - {id})
  }

  function DeleteRecover(db: Db, id: MsgId): Db {
    if id <= 0 then db else db.(recovers := db.recovers - {id})
  }

  function WithCheckedOut(db: Db, id: MsgId, out: bool): Db {
    if id > 0 && id in db.recovers then db.(recovers := db.recovers[id := db.recovers[id].(checkedOut := out)]) else db
  }

  function Apply(db: Db, op: Op): Outcome {
    match op
    case CleanRecover(id) => Committed(DeleteRecover(db, id))
    case CleanIntervalRetry(id) => Committed(DeleteRetry(db, id))
    case ResendForRecover(id) =>
      Committed(WithCheckedOut(db, id, false))
    case DoIntervalMessageRetry(m, now, newId) =>
      var row := Retry(m.payload, ToRetry, now + m.payload.interval);
      if m.msgId > 0 then Committed(CheckInRetry(db, m.msgId, row)) else InsertRetry(db, newId, row)
    case DoIntervalMessageRecover(m) =>
      // delete and add are one transaction; the add may silently refuse the row
      if m.msgId > 0 && m.msgId in db.retries then InsertRecover(DeleteRetry(db, m.msgId), m.msgId, m.payload)
      else Committed(db)
    case DoImmediateMessageRecover(m, newId) => InsertRecover(db, newId, m.payload)
    case DoMessageDirectToRecover(m, newId) =>
      InsertRecover(db, if m.msgId > 0 then m.msgId else newId, NeverRetried(m.payload))
    case CheckOutRetry(id) => Committed(if CanCheckOut(db, id) then CheckedOut(db, id) else db)
    case CheckOutRecover(id) =>
      Committed(WithCheckedOut(db, id, true))
    case HouseKeep(batch) =>
      if exists id :: id in batch && id in db.recovers then Thrown
      else Committed(Db(db.retries - batch.Keys, db.recovers + map id | id in batch :: Recover(batch[id], false)))
  }

  /** `WHERE msg_id = ? AND retry_state = 0`: an update of a row that is already out counts none. */
  predicate CanCheckOut(db: Db, id: MsgId) {
    id > 0 && id in db.retries && db.retries[id].state == ToRetry
  }

  function CheckedOut(db: Db, id: MsgId): Db
    requires id in db.retries
  {
    db.(retries := db.retries[id := db.retries[id].(state := InRetry)])
  }

  function After(db: Db, op: Op): Db {
    match Apply(db, op)
    case Committed(d) => d
    case Thrown => db
  }

  // ---- what holds of one operation ----

  /** The ids in the tables were given out by the generator. */
  predicate Issued(db: Db, issued: set<MsgId>) {
    db.retries.Keys <= issued && db.recovers.Keys <= issued && forall id | id in issued :: id > 0
  }

  predicate Disjoint(db: Db) {
    forall id :: !(id in db.retries && id in db.recovers)
  }

  /** The id an operation draws from the generator. */
  function Draws(op: Op): set<MsgId> {
    match op
    case DoIntervalMessageRetry(m, _, newId) => if m.msgId > 0 then {} else {newId}
    case DoImmediateMessageRecover(_, newId) => {newId}
    case DoMessageDirectToRecover(m, newId) => if m.msgId > 0 then {} else {newId}
    case _ => {}
  }

  /** What the generator and the house-keeping query promise about an operation. */
  predicate Legal(op: Op, issued: set<MsgId>) {
    && Draws(op) !! issued && (forall id | id in Draws(op) :: id > 0)
    && (op.HouseKeep? ==> op.batch.Keys <= issued)
  }

  /** A message that brings its own id into the recover table, whatever interval_retry holds. */
  predicate Bypasses(db: Db, op: Op) {
    op.DoMessageDirectToRecover? && op.m.msgId > 0 && op.m.msgId in db.retries && Storable(op.m.msgId, op.m.payload)
  }

  /** An operation lets an id stand in both tables exactly when it bypasses interval_retry. */
  lemma DisjointExactly(db: Db, op: Op, issued: set<MsgId>)
    requires Disjoint(db) && Issued(db, issued) && Legal(op, issued)
    ensures Disjoint(After(db, op)) <==> !Bypasses(db, op)
  {
    if Bypasses(db, op) {
      assert op.m.msgId in After(db, op).retries && op.m.msgId in After(db, op).recovers;
    }
  }

  /** Such a message exists. */
  lemma DirectToRecoverDuplicates()
    returns (db: Db, op: Op)
    ensures Disjoint(db) && Issued(db, {1}) && Legal(op, {1}) && !Disjoint(After(db, op))
  {
    var p := Payload("queue", "text", 1000, 0, 3);
    db := Db(map[1 := Retry(p, InRetry, 0)], map[]);
    op := DoMessageDirectToRecover(Message(1, p), 2);
    assert 1 in After(db, op).retries && 1 in After(db, op).recovers;
  }

  predicate Holds(db: Db, id: MsgId) {
    id in db.retries || id in db.recovers
  }

  /** The clean-up the protocol provides for. */
  predicate Cleans(db: Db, op: Op, id: MsgId) {
    id > 0 && ((op == CleanRecover(id) && id !in db.retries) || (op == CleanIntervalRetry(id) && id !in db.recovers))
  }

  /** An interval message sent to recovery without a queue name or a text: its row is deleted,
      and the recover table refuses the new one. */
  predicate Loses(db: Db, op: Op, id: MsgId) {
    op.DoIntervalMessageRecover? && op.m.msgId == id > 0 && id in db.retries && id !in db.recovers
    && !Storable(id, op.m.payload)
  }

  /** A stored message disappears exactly when it is cleaned or lost. */
  lemma StaysExactly(db: Db, op: Op, id: MsgId)
    requires Holds(db, id)
    ensures Holds(After(db, op), id) <==> !Cleans(db, op, id) && !Loses(db, op, id)
  {
  }

  lemma MessageIsLost() returns (db: Db, op: Op)
    ensures Disjoint(db) && Holds(db, 1) && !Cleans(db, op, 1) && !Holds(After(db, op), 1)
  {
    db := Db(map[1 := Retry(Payload("queue", "text", 1000, 3, 3), InRetry, 0)], map[]);
    op := DoIntervalMessageRecover(Message(1, Payload("queue", "", 1000, 3, 3)));
  }

  lemma IssuedStays(db: Db, op: Op, issued: set<MsgId>)
    requires Issued(db, issued) && Legal(op, issued) && !Bypasses(db, op)
    requires op.DoMessageDirectToRecover? ==> op.m.msgId <= 0 || op.m.msgId in issued
    ensures Issued(After(db, op), issued + Draws(op))
  {
  }

  /** The messages an operation is about. */
  function Concerns(op: Op): set<MsgId> {
    match op
    case CleanRecover(id) => {id}
    case CleanIntervalRetry(id) => {id}
    case ResendForRecover(id) => {id}
    case DoIntervalMessageRetry(m, _, newId) => if m.msgId > 0 then {m.msgId} else {newId}
    case DoIntervalMessageRecover(m) => {m.msgId}
    case DoImmediateMessageRecover(_, newId) => {newId}
    case DoMessageDirectToRecover(m, newId) => if m.msgId > 0 then {m.msgId} else {newId}
    case CheckOutRetry(id) => {id}
    case CheckOutRecover(id) => {id}
    case HouseKeep(batch) => batch.Keys
  }

  /** The rows of one message. */
  datatype Rows = Rows(retry: Option<Retry>, recover: Option<Recover>)

  function RowsOf(db: Db, id: MsgId): Rows {
    Rows(if id in db.retries then Some(db.retries[id]) else None,
         if id in db.recovers then Some(db.recovers[id]) else None)
  }

  /** The rows of message `id` have become `rows`, and those of all others are as they were. */
  ghost predicate Becomes(before: Db, after: Db, id: MsgId, rows: Rows) {
    RowsOf(after, id) == rows && forall k | k != id :: RowsOf(after, k) == RowsOf(before, k)
  }

  /** An operation leaves the rows of all other messages alone. */
  lemma OnlyItsOwnRows(db: Db, op: Op, id: MsgId)
    ensures id !in Concerns(op) ==> RowsOf(After(db, op), id) == RowsOf(db, id)
  {
  }

  // ---- what each operation does to the rows of its message ----

  /** Cleaning removes one of the rows. */
  lemma CleaningRemoves(db: Db, id: MsgId)
    ensures if id <= 0 then After(db, CleanRecover(id)) == db
            else Becomes(db, After(db, CleanRecover(id)), id, RowsOf(db, id).(recover := None))
    ensures if id <= 0 then After(db, CleanIntervalRetry(id)) == db
            else Becomes(db, After(db, CleanIntervalRetry(id)), id, RowsOf(db, id).(retry := None))
  {
  }

  /** A first retry is stored under its new id, to be retried after its interval. */
  lemma FirstRetryIsStored(db: Db, m: Message, now: int, newId: MsgId)
    requires m.msgId <= 0 < newId
    ensures var op, p := DoIntervalMessageRetry(m, now, newId), m.payload;
            if p.queue == "" || p.msg == "" then Apply(db, op) == Committed(db)
            else if newId in db.retries then Apply(db, op) == Thrown && After(db, op) == db
            else Becomes(db, After(db, op), newId,
                         RowsOf(db, newId).(retry := Some(Retry(p, ToRetry, now + p.interval))))
  {
  }

  /** A later one is checked in: the row of the message, if it is still there, is replaced. */
  lemma CheckInIsStored(db: Db, m: Message, now: int, newId: MsgId)
    requires m.msgId > 0
    ensures var op, p := DoIntervalMessageRetry(m, now, newId), m.payload;
            && Apply(db, op).Committed?
            && if p.queue == "" || p.msg == "" || m.msgId !in db.retries then After(db, op) == db
               else Becomes(db, After(db, op), m.msgId,
                            RowsOf(db, m.msgId).(retry := Some(Retry(p, ToRetry, now + p.interval))))
  {
  }

  /** An interval message goes from one table to the other under its own id; without a queue name or
      a text it only goes, and if the other table has it already it stays. */
  lemma IntervalRecoverMoves(db: Db, m: Message)
    ensures var op, p := DoIntervalMessageRecover(m), m.payload;
            if m.msgId <= 0 || m.msgId !in db.retries then Apply(db, op) == Committed(db)
            else if p.queue == "" || p.msg == "" then
              Becomes(db, After(db, op), m.msgId, RowsOf(db, m.msgId).(retry := None))
            else if m.msgId in db.recovers then Apply(db, op) == Thrown && After(db, op) == db
            else Becomes(db, After(db, op), m.msgId, Rows(None, Some(Recover(p, false))))
  {
  }

  /** Any other message for recovery is added under a new id. */
  lemma ImmediateRecoverIsStored(db: Db, m: Message, newId: MsgId)
    requires newId > 0
    ensures var op, p := DoImmediateMessageRecover(m, newId), m.payload;
            if p.queue == "" || p.msg == "" then Apply(db, op) == Committed(db)
            else if newId in db.recovers then Apply(db, op) == Thrown && After(db, op) == db
            else Becomes(db, After(db, op), newId, RowsOf(db, newId).(recover := Some(Recover(p, false))))
  {
  }

  /** A message for recovery that was never retried says so in its row. */
  lemma DirectRecoverIsStored(db: Db, m: Message, newId: MsgId)
    requires newId > 0
    ensures var op, p := DoMessageDirectToRecover(m, newId), m.payload;
            var id := if m.msgId > 0 then m.msgId else newId;
            if p.queue == "" || p.msg == "" then Apply(db, op) == Committed(db)
            else if id in db.recovers then Apply(db, op) == Thrown && After(db, op) == db
            else Becomes(db, After(db, op), id,
                         RowsOf(db, id).(recover := Some(Recover(Payload(p.queue, p.msg, -1, -1, -1), false))))
  {
  }

  /** Checking out and sending again change the mark of a row and nothing of what it holds. */
  lemma MarksChange(db: Db, id: MsgId)
    ensures var after := After(db, CheckOutRetry(id));
            if id <= 0 || id !in db.retries || db.retries[id].state == InRetry then after == db
            else
              var row := db.retries[id];
              Becomes(db, after, id, RowsOf(db, id).(retry := Some(Retry(row.payload, InRetry, row.nextExecAt))))
    ensures forall op | op in [CheckOutRecover(id), ResendForRecover(id)] ::
              if id <= 0 || id !in db.recovers then After(db, op) == db
              else Becomes(db, After(db, op), id,
                           RowsOf(db, id).(recover := Some(Recover(db.recovers[id].payload, op.CheckOutRecover?))))
  {
  }

  /** House-keeping moves the whole batch or nothing. */
  lemma HouseKeepMoves(db: Db, batch: map<MsgId, Payload>)
    ensures var op := HouseKeep(batch);
            if exists id :: id in batch && id in db.recovers then Apply(db, op) == Thrown && After(db, op) == db
            else
              forall id :: RowsOf(After(db, op), id)
                           == if id in batch then Rows(None, Some(Recover(batch[id], false))) else RowsOf(db, id)
  {
  }

  // ---- the service ----

  class MRFMessageProcessService {
    var retries: map<MsgId, Retry>
    var recovers: map<MsgId, Recover>

    ghost function Tables(): Db
      reads this
    {
      Db(retries, recovers)
    }

    constructor ()
      ensures Tables() == Db(map[], map[])
    {
      retries, recovers := map[], map[];
    }

    method CleanRecover(msgId: MsgId)
      modifies this
      ensures Tables() == After(old(Tables()), Op.CleanRecover(msgId))
    {
      if msgId > 0 {
        recovers := recovers - {msgId};
      }
    }

    method CleanIntervalRetry(msgId: MsgId)
      modifies this
      ensures Tables() == After(old(Tables()), Op.CleanIntervalRetry(msgId))
    {
      if msgId > 0 {
        retries := retries - {msgId};
      }
    }

    method ResendForRecover(msgId: MsgId)
      modifies this
      ensures Tables() == After(old(Tables()), Op.ResendForRecover(msgId))
    {
      if msgId > 0 && msgId in recovers {
        recovers := recovers[msgId := recovers[msgId].(checkedOut := false)];
      }
    }

    /** Ends in an exception of the DAO when `thrown`. */
    method DoIntervalMessageRetry(m: Message, now: int, newId: MsgId) returns (thrown: bool)
      modifies this
      ensures thrown <==> Apply(old(Tables()), Op.DoIntervalMessageRetry(m, now, newId)).Thrown?
      ensures Tables() == After(old(Tables()), Op.DoIntervalMessageRetry(m, now, newId))
    {
      var nextExecAt := now + m.payload.interval;
      thrown := false;
      if m.msgId > 0 {
        if Storable(m.msgId, m.payload) && m.msgId in retries {
          retries := retries[m.msgId := Retry(m.payload, ToRetry, nextExecAt)];
        }
      } else if Storable(newId, m.payload) {
        if newId in retries {
          return true;
        }
        retries := retries[newId := Retry(m.payload, ToRetry, nextExecAt)];
      }
    }

    method AddRecover(id: MsgId, p: Payload) returns (thrown: bool)
      modifies this`recovers
      ensures thrown <==> InsertRecover(old(Tables()), id, p).Thrown?
      ensures !thrown ==> Committed(Tables()) == InsertRecover(old(Tables()), id, p)
      ensures thrown ==> Tables() == old(Tables())
    {
      thrown := false;
      if Storable(id, p) {
        if id in recovers {
          return true;
        }
        recovers := recovers[id := Recover(p, false)];
      }
    }

    /** Delete, then add only if something was deleted; an exception undoes both. */
    method DoIntervalMessageRecover(m: Message) returns (thrown: bool)
      modifies this
      ensures thrown <==> Apply(old(Tables()), Op.DoIntervalMessageRecover(m)).Thrown?
      ensures Tables() == After(old(Tables()), Op.DoIntervalMessageRecover(m))
    {
      var before := retries;
      thrown := false;
      if m.msgId > 0 && m.msgId in retries {
        retries := retries - {m.msgId};
        thrown := AddRecover(m.msgId, m.payload);
        if thrown {
          retries := before;
        }
      }
    }

    method DoImmediateMessageRecover(m: Message, newId: MsgId) returns (thrown: bool)
      modifies this
      ensures thrown <==> Apply(old(Tables()), Op.DoImmediateMessageRecover(m, newId)).Thrown?
      ensures Tables() == After(old(Tables()), Op.DoImmediateMessageRecover(m, newId))
    {
      thrown := AddRecover(newId, m.payload);
    }

    method DoMessageDirectToRecover(m: Message, newId: MsgId) returns (thrown: bool)
      modifies this
      ensures thrown <==> Apply(old(Tables()), Op.DoMessageDirectToRecover(m, newId)).Thrown?
      ensures Tables() == After(old(Tables()), Op.DoMessageDirectToRecover(m, newId))
    {
      thrown := AddRecover(if m.msgId > 0 then m.msgId else newId, NeverRetried(m.payload));
    }
  }
}
