/**
 * send_session_reminders: flush the window of every recipient of an
 * upcoming row, then send one reminder per row, registering each reminder
 * that was delivered in its recipient's window. A private chat's id is
 * its user's id, so each reminder goes to chat row.userId.
 */
module Notifications {
  import opened Wrappers
  import opened Text
  import opened Calendar
  import opened Tables
  import opened Queries
  import opened Transport
  import opened Cleaner
  import opened Store
  import opened CallbackData

  /** The default hours_before of get_upcoming_sessions. */
  const ReminderHours := 2

  /** The two buttons of a reminder: confirm_{id} and decline_{id}. */
  function ReminderKeyboard(sessionId: int): Keyboard {
    Buttons([Encode("confirm", sessionId), Encode("decline", sessionId)])
  }

  function ReminderRequest(row: UpcomingRow): Request {
    SendMessage(row.userId, Reminder(row.game, row.date, row.time), ReminderKeyboard(row.id))
  }

  /** The windows after flushing the recipient of each row in turn. */
  function FlushAll(m: map<int, seq<Handle>>, rows: seq<UpcomingRow>): map<int, seq<Handle>> {
    if |rows| == 0 then m else Flushed(FlushAll(m, rows[..|rows| - 1]), rows[|rows| - 1].userId)
  }

  /** The delete calls of those flushes. */
  function FlushRequests(m: map<int, seq<Handle>>, rows: seq<UpcomingRow>): seq<Request> {
    if |rows| == 0 then []
    else FlushRequests(m, rows[..|rows| - 1]) + Deletions(WindowOf(FlushAll(m, rows[..|rows| - 1]), rows[|rows| - 1].userId))
  }

  /** One send per row, in row order. */
  function ReminderRequests(rows: seq<UpcomingRow>): (r: seq<Request>)
    ensures |r| == |rows|
  {
    seq(|rows|, i requires 0 <= i < |rows| => ReminderRequest(rows[i]))
  }

  /** Both buttons of a reminder read back, through the second field, as the session it is about. */
  lemma ReminderButtonsReadBack(sessionId: int)
    ensures forall b :: b in ReminderKeyboard(sessionId).data ==> SecondField(b) == Some(sessionId)
  {
    SecondFieldRoundTrip("confirm", sessionId);
    SecondFieldRoundTrip("decline", sessionId);
  }

  lemma ReminderRequestsStep(rows: seq<UpcomingRow>, i: int)
    requires 0 <= i < |rows|
    ensures ReminderRequests(rows[..i + 1]) == ReminderRequests(rows[..i]) + [ReminderRequest(rows[i])]
  {
    var a, b := ReminderRequests(rows[..i + 1]), ReminderRequests(rows[..i]) + [ReminderRequest(rows[i])];
    assert |a| == |b|;
    forall j | 0 <= j < |a| ensures a[j] == b[j] {
      if j < i {
        assert rows[..i + 1][j] == rows[..i][j];
      }
    }
  }

  /** How many of the rows' reminders are delivered. */
  function Delivered(rows: seq<UpcomingRow>, unreachable: set<int>): nat {
    if |rows| == 0 then 0
    else Delivered(rows[..|rows| - 1], unreachable) + (if rows[|rows| - 1].userId in unreachable then 0 else 1)
  }

  /** The windows after the send phase: each delivered reminder registered under its recipient. */
  function AfterReminders(m: map<int, seq<Handle>>, rows: seq<UpcomingRow>, unreachable: set<int>, next: int): map<int, seq<Handle>> {
    if |rows| == 0 then m
    else
      var prefix := rows[..|rows| - 1];
      var last := rows[|rows| - 1];
      var before := AfterReminders(m, prefix, unreachable, next);
      if last.userId in unreachable then before
      else Appended(before, last.userId, Handle(last.userId, next + Delivered(prefix, unreachable)))
  }

  /** What one more row adds to the windows and to the count. */
  lemma AfterRemindersStep(m: map<int, seq<Handle>>, rows: seq<UpcomingRow>, i: int, unreachable: set<int>, next: int)
    requires 0 <= i < |rows|
    ensures var user := rows[i].userId;
      AfterReminders(m, rows[..i + 1], unreachable, next)
        == Answered(AfterReminders(m, rows[..i], unreachable, next), user, user, unreachable, next + Delivered(rows[..i], unreachable))
      && Delivered(rows[..i + 1], unreachable) == Delivered(rows[..i], unreachable) + (if user in unreachable then 0 else 1)
  {
    assert rows[..i + 1][..i] == rows[..i];
  }

  /** The delivered reminders of one user, in row order. */
  function DeliveredTo(rows: seq<UpcomingRow>, user: int, unreachable: set<int>, next: int): seq<Handle> {
    if |rows| == 0 then []
    else
      var prefix := rows[..|rows| - 1];
      var last := rows[|rows| - 1];
      DeliveredTo(prefix, user, unreachable, next)
      + (if last.userId == user && last.userId !in unreachable then [Handle(user, next + Delivered(prefix, unreachable))] else [])
  }

  predicate IsRecipient(rows: seq<UpcomingRow>, user: int) {
    exists i :: 0 <= i < |rows| && rows[i].userId == user
  }

  /** The first loop: delete the previous messages of every row's recipient. */
  method FlushRecipients(bot: Bot, cleaner: MessageCleaner, rows: seq<UpcomingRow>)
    modifies bot, cleaner
    ensures cleaner.messageIds == FlushAll(old(cleaner.messageIds), rows)
    ensures bot.log == old(bot.log) + FlushRequests(old(cleaner.messageIds), rows)
    ensures bot.nextMessageId == old(bot.nextMessageId)
  {
    var m0 := cleaner.messageIds;
    var log0 := bot.log;
    var i := 0;
    while i < |rows|
      invariant 0 <= i <= |rows|
      invariant cleaner.messageIds == FlushAll(m0, rows[..i])
      invariant bot.log == log0 + FlushRequests(m0, rows[..i])
      invariant bot.nextMessageId == old(bot.nextMessageId)
    {
      assert rows[..i + 1][..i] == rows[..i];
      cleaner.DeletePreviousMessages(bot, rows[i].userId);
      i := i + 1;
    }
    assert rows[..i] == rows;
  }

  /** The second loop: one reminder per row; a failed send is skipped, a delivered one is registered. */
  method SendReminders(bot: Bot, cleaner: MessageCleaner, rows: seq<UpcomingRow>)
    modifies bot, cleaner
    ensures cleaner.messageIds == AfterReminders(old(cleaner.messageIds), rows, bot.unreachable, old(bot.nextMessageId))
    ensures bot.log == old(bot.log) + ReminderRequests(rows)
    ensures bot.nextMessageId == old(bot.nextMessageId) + Delivered(rows, bot.unreachable)
  {
    var m0 := cleaner.messageIds;
    var log0 := bot.log;
    var next0 := bot.nextMessageId;
    var i := 0;
    while i < |rows|
      invariant 0 <= i <= |rows|
      invariant cleaner.messageIds == AfterReminders(m0, rows[..i], bot.unreachable, next0)
      invariant bot.log == log0 + ReminderRequests(rows[..i])
      invariant bot.nextMessageId == next0 + Delivered(rows[..i], bot.unreachable)
    {
      RemindOne(bot, cleaner, rows, i, m0, log0, next0);
      i := i + 1;
    }
    assert rows[..i] == rows;
  }

  /** One turn of the send loop: the reminder for rows[i], registered for deletion when delivered. */
  method RemindOne(bot: Bot, cleaner: MessageCleaner, rows: seq<UpcomingRow>, i: int,
                   ghost m0: map<int, seq<Handle>>, ghost log0: seq<Request>, ghost next0: int)
    requires 0 <= i < |rows|
    requires cleaner.messageIds == AfterReminders(m0, rows[..i], bot.unreachable, next0)
    requires bot.log == log0 + ReminderRequests(rows[..i])
    requires bot.nextMessageId == next0 + Delivered(rows[..i], bot.unreachable)
    modifies bot, cleaner
    ensures cleaner.messageIds == AfterReminders(m0, rows[..i + 1], bot.unreachable, next0)
    ensures bot.log == log0 + ReminderRequests(rows[..i + 1])
    ensures bot.nextMessageId == next0 + Delivered(rows[..i + 1], bot.unreachable)
  {
    ReminderRequestsStep(rows, i);
    AfterRemindersStep(m0, rows, i, bot.unreachable, next0);
    ghost var after := AfterReminders(m0, rows[..i + 1], bot.unreachable, next0);
    ghost var delivered := Delivered(rows[..i + 1], bot.unreachable);
    var row := rows[i];
    var _ := Answer(bot, cleaner, row.userId, row.userId, Reminder(row.game, row.date, row.time), ReminderKeyboard(row.id));
  }

  /**
   * The scheduled job. A failing fetch of the upcoming rows ends the job
   * before any request; otherwise all flushes precede all sends.
   */
  method SendSessionReminders(db: Database, bot: Bot, cleaner: MessageCleaner, now: DateTime, fetchFails: bool)
    requires Valid(now)
    modifies bot, cleaner
    ensures fetchFails ==>
      bot.log == old(bot.log) && cleaner.messageIds == old(cleaner.messageIds) && bot.nextMessageId == old(bot.nextMessageId)
    ensures !fetchFails ==>
      var rows := GetUpcomingSessions(db.sessions, db.participants, db.confirmations, now, ReminderHours);
      bot.log == old(bot.log) + FlushRequests(old(cleaner.messageIds), rows) + ReminderRequests(rows)
      && cleaner.messageIds == AfterReminders(FlushAll(old(cleaner.messageIds), rows), rows, bot.unreachable, old(bot.nextMessageId))
      && bot.nextMessageId == old(bot.nextMessageId) + Delivered(rows, bot.unreachable)
  {
    if fetchFails {
      return;
    }
    var rows := GetUpcomingSessions(db.sessions, db.participants, db.confirmations, now, ReminderHours);
    FlushRecipients(bot, cleaner, rows);
    SendReminders(bot, cleaner, rows);
  }

  /** After the flush phase every recipient's window is empty, and every other window is as before. */
  lemma {:induction false} FlushAllWindows(m: map<int, seq<Handle>>, rows: seq<UpcomingRow>, user: int)
    ensures IsRecipient(rows, user) ==> WindowOf(FlushAll(m, rows), user) == []
    ensures !IsRecipient(rows, user) ==> WindowOf(FlushAll(m, rows), user) == WindowOf(m, user)
    decreases |rows|
  {
    if |rows| > 0 {
      var prefix := rows[..|rows| - 1];
      FlushAllWindows(m, prefix, user);
      FlushedWindows(FlushAll(m, prefix), rows[|rows| - 1].userId, user);
      if IsRecipient(rows, user) && rows[|rows| - 1].userId != user {
        var i :| 0 <= i < |rows| && rows[i].userId == user;
        assert prefix[i].userId == user;
      }
      if IsRecipient(prefix, user) {
        var i :| 0 <= i < |prefix| && prefix[i].userId == user;
        assert rows[i].userId == user;
      }
    }
  }

  /** The send phase adds to a user's window exactly the reminders delivered to that user, in row order. */
  lemma {:induction false} AfterRemindersWindow(m: map<int, seq<Handle>>, rows: seq<UpcomingRow>, unreachable: set<int>, next: int, user: int)
    ensures WindowOf(AfterReminders(m, rows, unreachable, next), user) == WindowOf(m, user) + DeliveredTo(rows, user, unreachable, next)
    decreases |rows|
  {
    if |rows| > 0 {
      var prefix := rows[..|rows| - 1];
      AfterRemindersWindow(m, prefix, unreachable, next, user);
      var last := rows[|rows| - 1];
      if last.userId !in unreachable {
        AppendedWindows(AfterReminders(m, prefix, unreachable, next), last.userId,
                        Handle(last.userId, next + Delivered(prefix, unreachable)), user);
      }
    }
  }

  /**
   * At the end, a recipient's window holds exactly the reminders delivered
   * to them, even with several upcoming rows, and the window of anyone
   * else is unchanged.
   */
  lemma FinalWindows(m: map<int, seq<Handle>>, rows: seq<UpcomingRow>, unreachable: set<int>, next: int, user: int)
    ensures var final := AfterReminders(FlushAll(m, rows), rows, unreachable, next);
      (IsRecipient(rows, user) ==> WindowOf(final, user) == DeliveredTo(rows, user, unreachable, next))
      && (!IsRecipient(rows, user) ==> WindowOf(final, user) == WindowOf(m, user))
  {
    FlushAllWindows(m, rows, user);
    AfterRemindersWindow(FlushAll(m, rows), rows, unreachable, next, user);
    if !IsRecipient(rows, user) {
      NoReminderForOthers(rows, user, unreachable, next);
    }
  }

  lemma {:induction false} NoReminderForOthers(rows: seq<UpcomingRow>, user: int, unreachable: set<int>, next: int)
    requires !IsRecipient(rows, user)
    ensures DeliveredTo(rows, user, unreachable, next) == []
    decreases |rows|
  {
    if |rows| > 0 {
      var prefix := rows[..|rows| - 1];
      assert forall i :: 0 <= i < |prefix| ==> prefix[i] == rows[i];
      NoReminderForOthers(prefix, user, unreachable, next);
    }
  }

  /** Every row gets its reminder and the reminders delivered are the rows whose recipient is reachable. */
  lemma {:induction false} DeliveredCount(rows: seq<UpcomingRow>, unreachable: set<int>)
    ensures Delivered(rows, unreachable) <= |rows|
    ensures (forall i :: 0 <= i < |rows| ==> rows[i].userId !in unreachable) ==> Delivered(rows, unreachable) == |rows|
    ensures (forall i :: 0 <= i < |rows| ==> rows[i].userId in unreachable) ==> Delivered(rows, unreachable) == 0
    decreases |rows|
  {
    if |rows| > 0 {
      var prefix := rows[..|rows| - 1];
      DeliveredCount(prefix, unreachable);
      assert forall i :: 0 <= i < |prefix| ==> prefix[i] == rows[i];
    }
  }
}
