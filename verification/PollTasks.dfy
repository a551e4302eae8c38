/** What the tasks of the scheduler threads do: the exception queue is drained and dispatched to the
    service, a house-keeping batch is moved in one transaction, a retry waits for its time. */
module PollTasks {
  import opened Wrappers
  import opened RetryTables

  const CLEAN_RECOVER := 1
  const CLEAN_INTERVAL_RETRY := 2
  const RESEND_FOR_RECOVER := 3
  const INTERVAL_MSG_DO_RETRY := 4
  const IMMEDIATE_MSG_DO_RETRY := 5
  const INTERVAL_MSG_DO_RECOVER := 6
  const IMMEDIATE_MSG_DO_RECOVER := 7
  const MSG_DIRECT_TO_RECOVER := 8

  /** A message with the time and the new id it meets when it is handled. */
  datatype Mail = Mail(flag: int, m: Message, now: int, newId: MsgId)

  /** The operation a flag stands for; only the remote interface knows the last flag. */
  function OpOf(mail: Mail, remote: bool): Option<Op> {
    if mail.flag == CLEAN_RECOVER then Some(CleanRecover(mail.m.msgId))
    else if mail.flag == CLEAN_INTERVAL_RETRY then Some(CleanIntervalRetry(mail.m.msgId))
    else if mail.flag == RESEND_FOR_RECOVER then Some(ResendForRecover(mail.m.msgId))
    else if mail.flag == INTERVAL_MSG_DO_RETRY then Some(DoIntervalMessageRetry(mail.m, mail.now, mail.newId))
    else if mail.flag == INTERVAL_MSG_DO_RECOVER then Some(DoIntervalMessageRecover(mail.m))
    else if mail.flag == IMMEDIATE_MSG_DO_RECOVER then Some(DoImmediateMessageRecover(mail.m, mail.newId))
    else if mail.flag == MSG_DIRECT_TO_RECOVER && remote then Some(DoMessageDirectToRecover(mail.m, mail.newId))
    else None
  }

  /** One message, from the queue or by the remote interface: an operation that throws leaves the
      tables alone. */
  function AfterMail(db: Db, mail: Mail, remote: bool): Db {
    match OpOf(mail, remote)
    case Some(op) => After(db, op)
    case None => db
  }

  /** What each flag does to the tables, whichever way the message comes.  A message to be stored,
      but for the last flag, is one with a queue name and a text. */
  lemma FlagsMean(db: Db, mail: Mail, remote: bool)
    requires mail.newId > 0
    ensures var after, id, newId, p := AfterMail(db, mail, remote), mail.m.msgId, mail.newId, mail.m.payload;
            var nextExecAt := mail.now + p.interval;
            var rows, newRows, complete := RowsOf(db, id), RowsOf(db, newId), p.queue != "" && p.msg != "";
            match mail.flag
            case 1 => if id <= 0 then after == db else Becomes(db, after, id, rows.(recover := None))
            case 2 => if id <= 0 then after == db else Becomes(db, after, id, rows.(retry := None))
            case 3 => if id <= 0 || rows.recover.None? then after == db
                      else Becomes(db, after, id, rows.(recover := Some(Recover(rows.recover.value.payload, false))))
            case 4 => if !complete then after == db
                      else if id > 0 then
                        if rows.retry.None? then after == db
                        else Becomes(db, after, id, rows.(retry := Some(Retry(p, ToRetry, nextExecAt))))
                      else if newRows.retry.Some? then after == db
                      else Becomes(db, after, newId, newRows.(retry := Some(Retry(p, ToRetry, nextExecAt))))
            case 6 => if id <= 0 || rows.retry.None? || (complete && rows.recover.Some?) then after == db
                      else if complete then Becomes(db, after, id, Rows(None, Some(Recover(p, false))))
                      else Becomes(db, after, id, rows.(retry := None))
            case 7 => if !complete || newRows.recover.Some? then after == db
                      else Becomes(db, after, newId, newRows.(recover := Some(Recover(p, false))))
            case 8 => var own := if id > 0 then id else newId;
                      if !remote || !complete || RowsOf(db, own).recover.Some? then after == db
                      else Becomes(db, after, own, RowsOf(db, own).(
                        recover := Some(Recover(Payload(p.queue, p.msg, -1, -1, -1), false))))
            case _ => after == db
  {
    CleaningRemoves(db, mail.m.msgId);
    MarksChange(db, mail.m.msgId);
    if mail.flag == INTERVAL_MSG_DO_RETRY && mail.m.msgId > 0 {
      CheckInIsStored(db, mail.m, mail.now, mail.newId);
    } else if mail.flag == INTERVAL_MSG_DO_RETRY {
      FirstRetryIsStored(db, mail.m, mail.now, mail.newId);
    }
    IntervalRecoverMoves(db, mail.m);
    ImmediateRecoverIsStored(db, mail.m, mail.newId);
    DirectRecoverIsStored(db, mail.m, mail.newId);
  }

  /** A message keeps the tables disjoint exactly unless it comes by the remote interface, straight
      to recovery, with an id that interval_retry holds. */
  lemma MailKeepsDisjointExactly(db: Db, mail: Mail, remote: bool, issued: set<MsgId>)
    requires Disjoint(db) && Issued(db, issued) && mail.newId > 0 && mail.newId !in issued
    ensures Disjoint(AfterMail(db, mail, remote))
            <==> !(remote && mail.flag == MSG_DIRECT_TO_RECOVER && mail.m.msgId > 0 && mail.m.msgId in db.retries
                   && Storable(mail.m.msgId, mail.m.payload))
  {
    match OpOf(mail, remote)
    case Some(op) =>
      assert Legal(op, issued);
      DisjointExactly(db, op, issued);
    case None =>
  }

  function AfterTask(db: Db, task: seq<Mail>): Db {
    if task == [] then db else AfterMail(AfterTask(db, task[..|task| - 1]), task[|task| - 1], false)
  }

  /** The messages of a task are handled in their order. */
  lemma {:induction false} TaskInOrder(db: Db, first: seq<Mail>, second: seq<Mail>)
    ensures AfterTask(db, first + second) == AfterTask(AfterTask(db, first), second)
    ensures forall mail :: AfterTask(db, [mail]) == AfterMail(db, mail, false)
  {
    forall mail ensures AfterTask(db, [mail]) == AfterMail(db, mail, false) {
      assert AfterTask(db, [mail][..0]) == db;
    }
    if second == [] {
      assert first + second == first;
    } else {
      var n := |second| - 1;
      TaskInOrder(db, first, second[..n]);
      assert (first + second)[..|first| + n] == first + second[..n];
    }
  }

  function NewIds(task: seq<Mail>): set<MsgId> {
    set k | 0 <= k < |task| :: task[k].newId
  }

  /** The generator gives every message an id of its own, never used before. */
  predicate FreshIds(task: seq<Mail>, issued: set<MsgId>) {
    && (forall k | 0 <= k < |task| :: task[k].newId > 0 && task[k].newId !in issued)
    && (forall j, k | 0 <= j < k < |task| :: task[j].newId != task[k].newId)
  }

  /** Whatever comes through the exception queue, no id ends up in both tables. */
  lemma {:induction false} QueueKeepsDisjoint(db: Db, task: seq<Mail>, issued: set<MsgId>)
    requires Disjoint(db) && Issued(db, issued) && FreshIds(task, issued)
    ensures Disjoint(AfterTask(db, task)) && Issued(AfterTask(db, task), issued + NewIds(task))
  {
    if task != [] {
      var init, mail := task[..|task| - 1], task[|task| - 1];
      QueueKeepsDisjoint(db, init, issued);
      var before, known := AfterTask(db, init), issued + NewIds(init);
      assert NewIds(task) == NewIds(init) + {mail.newId};
      MailKeepsDisjointExactly(before, mail, false, known);
      match OpOf(mail, false)
      case Some(op) => IssuedStays(before, op, known);
      case None =>
    }
  }

  predicate Removes(db: Db, mail: Mail, id: MsgId) {
    match OpOf(mail, false)
    case Some(op) => Cleans(db, op, id) || Loses(db, op, id)
    case None => false
  }

  /** A stored message is still stored after a task in which no message cleaned or lost it. */
  lemma {:induction false} QueueKeepsStored(db: Db, task: seq<Mail>, id: MsgId)
    requires Holds(db, id)
    requires forall k | 0 <= k < |task| :: !Removes(AfterTask(db, task[..k]), task[k], id)
    ensures Holds(AfterTask(db, task), id)
  {
    if task != [] {
      var n := |task| - 1;
      var init := task[..n];
      assert forall k | 0 <= k < n :: init[..k] == task[..k] && init[k] == task[k];
      QueueKeepsStored(db, init, id);
      match OpOf(task[n], false)
      case Some(op) => StaysExactly(AfterTask(db, init), op, id);
      case None =>
    }
  }

  // ---- the exception queue ----

  /** What the broker hands out; a cast or a conversion may fail. */
  datatype Delivery = Readable(mail: Mail) | Unreadable

  function Delivered(task: seq<Mail>): (r: seq<Delivery>)
    ensures |r| == |task|
    ensures forall k | 0 <= k < |task| :: r[k] == Readable(task[k])
  {
    seq(|task|, k requires 0 <= k < |task| => Readable(task[k]))
  }

  lemma DeliveredSnoc(task: seq<Mail>, d: Delivery)
    ensures d.Readable? ==> Delivered(task + [d.mail]) == Delivered(task) + [d]
  {
  }

  class PollEQ {
    const service: MRFMessageProcessService
    var queue: seq<Delivery>

    constructor (service: MRFMessageProcessService, queue: seq<Delivery>)
      ensures this.service == service && this.queue == queue
    {
      this.service, this.queue := service, queue;
    }

    /** Receives until the queue is empty; or until receiving throws, after `budget` messages with
        nothing taken, or on a delivery that is no RetryMessage, which is taken and lost. What was
        received by then is the task, in order, and the rest stays in the queue. */
    method ConstructPollTask(budget: nat) returns (task: seq<Mail>, lost: bool)
      modifies this
      ensures old(queue) == Delivered(task) + (if lost then [Unreadable] else []) + queue
      ensures !lost ==> queue == [] || |task| == budget
    {
      task, lost := [], false;
      while queue != [] && |task| < budget
        invariant old(queue) == Delivered(task) + queue && |task| <= budget
        decreases |queue|
      {
        DeliveredSnoc(task, queue[0]);
        var delivery := queue[0];
        queue := queue[1..];
        if delivery.Unreadable? {
          lost := true;
          return;
        }
        task := task + [delivery.mail];
      }
    }

    /** Each message by its flag; an exception is logged and the next message follows. */
    method Execute(task: seq<Mail>)
      modifies service
      ensures service.Tables() == AfterTask(old(service.Tables()), task)
      ensures queue == old(queue)
    {
      for i := 0 to |task|
        invariant service.Tables() == AfterTask(old(service.Tables()), task[..i])
      {
        assert task[..i + 1][..i] == task[..i];
        Dispatch(task[i]);
      }
      assert task[..|task|] == task;
    }

    method Dispatch(mail: Mail)
      modifies service
      ensures service.Tables() == AfterMail(old(service.Tables()), mail, false)
    {
      var thrown := false;
      if mail.flag == CLEAN_RECOVER {
        service.CleanRecover(mail.m.msgId);
      } else if mail.flag == CLEAN_INTERVAL_RETRY {
        service.CleanIntervalRetry(mail.m.msgId);
      } else if mail.flag == RESEND_FOR_RECOVER {
        service.ResendForRecover(mail.m.msgId);
      } else if mail.flag == INTERVAL_MSG_DO_RETRY {
        thrown := service.DoIntervalMessageRetry(mail.m, mail.now, mail.newId);
      } else if mail.flag == INTERVAL_MSG_DO_RECOVER {
        thrown := service.DoIntervalMessageRecover(mail.m);
      } else if mail.flag == IMMEDIATE_MSG_DO_RECOVER {
        thrown := service.DoImmediateMessageRecover(mail.m, mail.newId);
      }
    }
  }

  // ---- house-keeping ----

  /** The rows of a query; msg_id is unique. */
  predicate DistinctRows(rows: seq<Message>) {
    forall i, j | 0 <= i < j < |rows| :: rows[i].msgId != rows[j].msgId
  }

  function BatchOf(rows: seq<Message>): map<MsgId, Payload> {
    if rows == [] then map[] else BatchOf(rows[..|rows| - 1])[rows[|rows| - 1].msgId := rows[|rows| - 1].payload]
  }

  lemma {:induction false} BatchKeys(rows: seq<Message>, id: MsgId)
    ensures id in BatchOf(rows) <==> exists k :: 0 <= k < |rows| && rows[k].msgId == id
  {
    if rows != [] {
      var n := |rows| - 1;
      BatchKeys(rows[..n], id);
      if id in BatchOf(rows[..n]) {
        var k :| 0 <= k < |rows[..n]| && rows[..n][k].msgId == id;
        assert rows[k].msgId == id;
      }
      if k :| 0 <= k < |rows| && rows[k].msgId == id {
        assert k < n ==> rows[..n][k].msgId == id;
      }
    }
  }

  /** Of distinct rows each one's content is in the batch. */
  lemma {:induction false} BatchHolds(rows: seq<Message>, k: nat)
    requires DistinctRows(rows) && k < |rows|
    ensures rows[k].msgId in BatchOf(rows) && BatchOf(rows)[rows[k].msgId] == rows[k].payload
  {
    if k < |rows| - 1 {
      BatchHolds(rows[..|rows| - 1], k);
    }
  }

  /** The rows the batch insert adds. */
  function Moved(batch: map<MsgId, Payload>): map<MsgId, Recover> {
    map id | id in batch :: Recover(batch[id], false)
  }

  class HouseKeeping {
    const tables: MRFMessageProcessService

    constructor (tables: MRFMessageProcessService)
      ensures this.tables == tables
    {
      this.tables := tables;
    }

    /** The task builds both lists, and the join DAO inserts, then deletes, row by row; a row that
        is in the recover table already undoes all of it. */
    method Execute(rows: seq<Message>)
      requires DistinctRows(rows)
      modifies tables
      ensures tables.Tables() == After(old(tables.Tables()), HouseKeep(BatchOf(rows)))
    {
      var recovers: seq<Message> := [];
      var msgIds: seq<MsgId> := [];
      for i := 0 to |rows|
        invariant recovers == rows[..i] && |msgIds| == i && forall k | 0 <= k < i :: msgIds[k] == rows[k].msgId
      {
        recovers := recovers + [rows[i]];
        msgIds := msgIds + [rows[i].msgId];
      }
      assert recovers == rows;
      var before := tables.recovers;
      var thrown := BatchAdd(recovers);
      if thrown {
        tables.recovers := before;
      } else {
        BatchDelete(rows, msgIds);
      }
    }

    method BatchAdd(rows: seq<Message>) returns (thrown: bool)
      requires DistinctRows(rows)
      modifies tables`recovers
      ensures thrown <==> exists id :: id in BatchOf(rows) && id in old(tables.recovers)
      ensures !thrown ==> tables.recovers == old(tables.recovers) + Moved(BatchOf(rows))
    {
      for i := 0 to |rows|
        invariant forall id :: !(id in BatchOf(rows[..i]) && id in old(tables.recovers))
        invariant tables.recovers == old(tables.recovers) + Moved(BatchOf(rows[..i]))
      {
        assert rows[..i + 1][..i] == rows[..i];
        BatchKeys(rows, rows[i].msgId);
        BatchKeys(rows[..i], rows[i].msgId);
        if rows[i].msgId in tables.recovers {
          return true;
        }
        assert Moved(BatchOf(rows[..i + 1]))
               == Moved(BatchOf(rows[..i]))[rows[i].msgId := Recover(rows[i].payload, false)];
        tables.recovers := tables.recovers[rows[i].msgId := Recover(rows[i].payload, false)];
      }
      assert rows[..|rows|] == rows;
      return false;
    }

    method BatchDelete(ghost rows: seq<Message>, msgIds: seq<MsgId>)
      requires |msgIds| == |rows| && forall k | 0 <= k < |rows| :: msgIds[k] == rows[k].msgId
      modifies tables`retries
      ensures tables.retries == old(tables.retries) - BatchOf(rows).Keys
    {
      for i := 0 to |msgIds|
        invariant tables.retries == old(tables.retries) - BatchOf(rows[..i]).Keys
      {
        assert rows[..i + 1][..i] == rows[..i];
        assert BatchOf(rows[..i + 1]).Keys == BatchOf(rows[..i]).Keys + {msgIds[i]};
        tables.retries := tables.retries - {msgIds[i]};
      }
      assert rows[..|rows|] == rows;
    }
  }

  // ---- the wait for a retry ----

  /** May go on at reading `k` of the clock. */
  predicate MayGoOn(triggerTime: int, readings: seq<int>, haltedAt: nat, k: nat)
    requires k < |readings|
  {
    triggerTime - readings[k] <= 2 || haltedAt <= k
  }

  /** The wait ends at the first reading of the clock that is less than 3 ms early, or at the
      first one after a halt. */
  method WaitUntilAppropriateToExecute(triggerTime: int, readings: seq<int>, haltedAt: nat) returns (k: nat)
    requires exists k :: 0 <= k < |readings| && MayGoOn(triggerTime, readings, haltedAt, k)
    ensures k < |readings| && MayGoOn(triggerTime, readings, haltedAt, k)
    ensures forall j | 0 <= j < k :: !MayGoOn(triggerTime, readings, haltedAt, j)
  {
    k := 0;
    var timeUntilTrigger := triggerTime - readings[0];
    while timeUntilTrigger > 2
      invariant k < |readings| && timeUntilTrigger == triggerTime - readings[k]
      invariant forall j | 0 <= j < k :: !MayGoOn(triggerTime, readings, haltedAt, j)
      decreases |readings| - k
    {
      if haltedAt <= k {
        break;
      }
      k := k + 1;
      timeUntilTrigger := triggerTime - readings[k];
    }
  }
}
