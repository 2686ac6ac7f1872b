/**
 * The administrator's buttons: the user list (cut into 4096-character
 * messages when it is too long for one), the blocked users, the prompts
 * that start blocking or unblocking, and the statistics. A press by anyone
 * but the administrator makes no request and changes nothing: the refusal
 * in the source is a call that raises before anything is sent.
 */
module AdminCallbacks {
  import opened Wrappers
  import opened Text
  import opened Tables
  import opened Queries
  import opened Transport
  import opened Fsm
  import opened Store

  /** Telegram's limit on the length of one message, as list_users tests it. */
  const MaxMessageLength: nat := 4096

  // ---------------------------------------------------------- chunking

  function Min(a: int, b: int): int {
    if a <= b then a else b
  }

  /**
   * [s[i:i + n] for i in range(0, len(s), n)]: the pieces of s of n
   * characters each, the last one shorter when n does not divide |s|.
   */
  function Chunks(s: string, n: nat): seq<string>
    requires n > 0
    decreases |s|
  {
    if |s| == 0 then []
    else if |s| <= n then [s]
    else [s[..n]] + Chunks(s[n..], n)
  }

  /**
   * The pieces put back together are the text, none is empty or longer
   * than n, and every piece but the last has exactly n characters.
   */
  lemma {:induction false} ChunksRebuild(s: string, n: nat)
    requires n > 0
    ensures Concat(Chunks(s, n)) == s
    ensures forall i :: 0 <= i < |Chunks(s, n)| ==> 0 < |Chunks(s, n)[i]| <= n
    ensures forall i :: 0 <= i < |Chunks(s, n)| - 1 ==> |Chunks(s, n)[i]| == n
    decreases |s|
  {
    if |s| == 0 {
    } else if |s| <= n {
      ConcatCons(s, []);
    } else {
      var rest := Chunks(s[n..], n);
      ChunksRebuild(s[n..], n);
      ConcatCons(s[..n], rest);
      assert Chunks(s, n) == [s[..n]] + rest;
      assert s == s[..n] + s[n..];
    }
  }

  /** Piece k is the slice that starts at k * n, as the comprehension takes it. */
  lemma {:induction false} ChunkAt(s: string, n: nat, k: nat)
    requires n > 0 && k < |Chunks(s, n)|
    ensures k * n < |s|
    ensures Chunks(s, n)[k] == s[k * n..Min(k * n + n, |s|)]
    decreases |s|
  {
    if |s| > n && k > 0 {
      ChunkAt(s[n..], n, k - 1);
      assert (k - 1) * n + n == k * n;
      assert s[n..][(k - 1) * n..Min((k - 1) * n + n, |s| - n)] == s[k * n..Min(k * n + n, |s|)];
    }
  }

  /** There are no pieces exactly for the empty text, and two or more exactly for a text longer than n. */
  lemma ChunkCount(s: string, n: nat)
    requires n > 0
    ensures |Chunks(s, n)| == 0 <==> |s| == 0
    ensures |Chunks(s, n)| >= 2 <==> |s| > n
  {
    if |s| > n {
      assert |s[n..]| > 0;
    }
  }

  // ------------------------------------------------------------ list texts

  /** f"ID: {user[0]}, Имя: {user[1]}, Возраст: {user[2]}" */
  function UserLineText(u: UserLine): string {
    "ID: " + IntToString(u.id) + ", Имя: " + u.name + ", Возраст: " + IntToString(u.age)
  }

  /** The line of each user, in row order. */
  function UserLineTexts(lines: seq<UserLine>): (r: seq<string>)
    ensures |r| == |lines|
  {
    seq(|lines|, i requires 0 <= i < |lines| => UserLineText(lines[i]))
  }

  /** user_list in list_users: the lines joined by newlines. */
  function UserListText(users: seq<User>): string {
    JoinWith(UserLineTexts(GetAllUsers(users)), '\n')
  }

  /** A reason, or "None" where the column is NULL, as an f-string writes it. */
  function ReasonText(reason: Option<string>): string {
    match reason
    case Some(s) => s
    case None => "None"
  }

  /** f"ID: {user[0]}, Имя: {user[1]}, Причина: {user[2]}" */
  function BlockedLineText(b: BlockedLine): string {
    "ID: " + IntToString(b.id) + ", Имя: " + b.name + ", Причина: " + ReasonText(b.reason)
  }

  function BlockedLineTexts(lines: seq<BlockedLine>): (r: seq<string>)
    ensures |r| == |lines|
  {
    seq(|lines|, i requires 0 <= i < |lines| => BlockedLineText(lines[i]))
  }

  /**
   * When no name holds a newline, the lines of the user list are exactly
   * one line per user, in row order, each giving that user's id, name and
   * age.
   */
  lemma UserListLines(users: seq<User>)
    requires |users| > 0
    requires forall i :: 0 <= i < |users| ==> '\n' !in users[i].name
    ensures var lines := Split(UserListText(users), '\n');
      |lines| == |users| &&
      forall i :: 0 <= i < |users| ==> lines[i] == UserLineText(UserLine(users[i].id, users[i].name, users[i].age))
  {
    var all := GetAllUsers(users);
    var texts := UserLineTexts(all);
    forall i | 0 <= i < |texts|
      ensures '\n' !in texts[i]
    {
      UserLineAvoidsNewline(all[i]);
    }
    JoinSplits(texts, '\n');
    assert Split(UserListText(users), '\n') == texts;
  }

  lemma UserLineAvoidsNewline(u: UserLine)
    requires '\n' !in u.name
    ensures '\n' !in UserLineText(u)
  {
    IntSpellingAvoids(u.id, '\n');
    IntSpellingAvoids(u.age, '\n');
  }

  // ----------------------------------------------------------- list_users

  /** The user list, one message per piece, to the chat of the pressed button. */
  function PartMessages(chatId: int, parts: seq<string>): (r: seq<Request>)
    ensures |r| == |parts|
  {
    seq(|parts|, i requires 0 <= i < |parts| => SendMessage(chatId, UserListPart(parts[i]), NoKeyboard))
  }

  /** The pieces actually attempted: all of them, or only the first where its send raises. */
  function AttemptedParts(chatId: int, parts: seq<string>, unreachable: set<int>): (r: seq<string>)
    ensures chatId !in unreachable ==> r == parts
    ensures chatId in unreachable ==> |r| == Min(1, |parts|) && r == parts[..|r|]
  {
    if chatId in unreachable && |parts| > 0 then parts[..1] else parts
  }

  /**
   * The requests of list_users for an administrator: the pieces of a list
   * longer than one message, each sent on its own; a shorter list edited
   * into the pressed message with the user-management keyboard.
   */
  function ListUsersRequests(cb: Callback, text: string, unreachable: set<int>): seq<Request> {
    if |text| > MaxMessageLength then
      PartMessages(cb.message.chatId, AttemptedParts(cb.message.chatId, Chunks(text, MaxMessageLength), unreachable))
    else
      [EditMessage(cb.message, UserList(text), UserManagement)]
  }

  /**
   * A list sent in pieces reaches a reachable chat whole: the pieces, in
   * order, spell the list, there are at least two, and none is over the
   * limit. A list that fits is one edit and no new message.
   */
  lemma ListUsersDelivers(cb: Callback, users: seq<User>, unreachable: set<int>)
    ensures var text := UserListText(users);
      var rs := ListUsersRequests(cb, text, unreachable);
      |text| > MaxMessageLength && cb.message.chatId !in unreachable ==>
        |rs| >= 2 && Concat(Chunks(text, MaxMessageLength)) == text &&
        forall i :: 0 <= i < |rs| ==>
          rs[i].SendMessage? && rs[i].chatId == cb.message.chatId && rs[i].content.UserListPart? &&
          |rs[i].content.text| <= MaxMessageLength
    ensures var text := UserListText(users);
      |text| <= MaxMessageLength ==> ListUsersRequests(cb, text, unreachable) == [EditMessage(cb.message, UserList(text), UserManagement)]
  {
    var text := UserListText(users);
    ChunksRebuild(text, MaxMessageLength);
    ChunkCount(text, MaxMessageLength);
  }

  /** for part in parts: await callback.message.answer(part), stopping at the first send that raises. */
  method SendParts(bot: Bot, chatId: int, parts: seq<string>)
    modifies bot
    ensures bot.log == old(bot.log) + PartMessages(chatId, AttemptedParts(chatId, parts, bot.unreachable))
    ensures bot.nextMessageId == old(bot.nextMessageId) + (if chatId in bot.unreachable then 0 else |parts|)
  {
    var i := 0;
    while i < |parts|
      invariant 0 <= i <= |parts|
      invariant i > 0 ==> chatId !in bot.unreachable
      invariant bot.log == old(bot.log) + PartMessages(chatId, parts[..i])
      invariant bot.nextMessageId == old(bot.nextMessageId) + i
    {
      PartMessagesStep(chatId, parts, i);
      var r := bot.Send(chatId, UserListPart(parts[i]), NoKeyboard);
      i := i + 1;
      if r.None? {
        return;
      }
    }
    assert parts[..i] == parts;
  }

  lemma PartMessagesStep(chatId: int, parts: seq<string>, i: int)
    requires 0 <= i < |parts|
    ensures PartMessages(chatId, parts[..i + 1]) == PartMessages(chatId, parts[..i]) + [SendMessage(chatId, UserListPart(parts[i]), NoKeyboard)]
  {
    var a, b := PartMessages(chatId, parts[..i + 1]), PartMessages(chatId, parts[..i]) + [SendMessage(chatId, UserListPart(parts[i]), NoKeyboard)];
    assert |a| == |b|;
    forall j | 0 <= j < |a|
      ensures a[j] == b[j]
    {
    }
  }

  /** list_users(callback), with adminId the configured admin_user_id. */
  method ListUsers(cb: Callback, db: Database, bot: Bot, adminId: int)
    modifies bot
    ensures cb.fromUser != adminId ==> bot.log == old(bot.log) && bot.nextMessageId == old(bot.nextMessageId)
    ensures cb.fromUser == adminId ==> bot.log == old(bot.log) + ListUsersRequests(cb, UserListText(db.users), bot.unreachable)
  {
    if cb.fromUser != adminId {
      return;
    }
    var text := UserListText(db.users);
    if |text| > MaxMessageLength {
      SendParts(bot, cb.message.chatId, Chunks(text, MaxMessageLength));
    } else {
      var _ := bot.Edit(cb.message, UserList(text), UserManagement);
    }
  }

  // --------------------------------------------------- show_blocked_users

  /** The one edit show_blocked_users makes: a notice when nobody is blocked, else the joined lines. */
  function BlockedUsersReply(cb: Callback, users: seq<User>): Request {
    var lines := GetBlockedUsers(users);
    if |lines| == 0 then EditMessage(cb.message, NoBlockedUsers, UserManagement)
    else EditMessage(cb.message, BlockedUserList(JoinWith(BlockedLineTexts(lines), '\n')), UserManagement)
  }

  /**
   * The notice that nobody is blocked is shown exactly when no user is
   * blocked; otherwise the list has one line per blocked user.
   */
  lemma BlockedReplyCases(cb: Callback, users: seq<User>)
    ensures BlockedUsersReply(cb, users).content == NoBlockedUsers <==> forall u :: u in users ==> !u.isBlocked
    ensures BlockedUsersReply(cb, users).keyboard == UserManagement
  {
    var lines := GetBlockedUsers(users);
    if |lines| > 0 {
      assert lines[0] in lines;
    } else {
      forall u | u in users
        ensures !u.isBlocked
      {
        assert BlockedLine(u.id, u.name, u.blockReason) !in lines;
      }
    }
  }

  /** show_blocked_users(callback) */
  method ShowBlockedUsers(cb: Callback, db: Database, bot: Bot, adminId: int)
    modifies bot
    ensures cb.fromUser != adminId ==> bot.log == old(bot.log)
    ensures cb.fromUser == adminId ==> bot.log == old(bot.log) + [BlockedUsersReply(cb, db.users)]
    ensures bot.nextMessageId == old(bot.nextMessageId)
  {
    if cb.fromUser != adminId {
      return;
    }
    var lines := GetBlockedUsers(db.users);
    if |lines| == 0 {
      var _ := bot.Edit(cb.message, NoBlockedUsers, UserManagement);
      return;
    }
    var _ := bot.Edit(cb.message, BlockedUserList(JoinWith(BlockedLineTexts(lines), '\n')), UserManagement);
  }

  // ---------------------------------------------- block and unblock prompts

  /**
   * start_block_user: the pressed message becomes the id prompt, and the
   * state WaitingForUserId is entered once that edit succeeds.
   */
  method StartBlockUser(cb: Callback, fsm: FsmContext, bot: Bot, adminId: int)
    modifies fsm, bot
    ensures bot.log == old(bot.log) + (if cb.fromUser == adminId then [EditMessage(cb.message, AskUserIdToBlock, NoKeyboard)] else [])
    ensures fsm.state == (if cb.fromUser == adminId && cb.message.chatId !in bot.unreachable then Some(WaitingForUserId) else old(fsm.state))
    ensures fsm.data == old(fsm.data) && bot.nextMessageId == old(bot.nextMessageId)
  {
    if cb.fromUser != adminId {
      return;
    }
    var edited := bot.Edit(cb.message, AskUserIdToBlock, NoKeyboard);
    if edited.None? {
      return;
    }
    fsm.SetState(WaitingForUserId);
  }

  /** start_unblock_user: the same with the unblock prompt and WaitingForUserIdUnblock. */
  method StartUnblockUser(cb: Callback, fsm: FsmContext, bot: Bot, adminId: int)
    modifies fsm, bot
    ensures bot.log == old(bot.log) + (if cb.fromUser == adminId then [EditMessage(cb.message, AskUserIdToUnblock, NoKeyboard)] else [])
    ensures fsm.state == (if cb.fromUser == adminId && cb.message.chatId !in bot.unreachable then Some(WaitingForUserIdUnblock) else old(fsm.state))
    ensures fsm.data == old(fsm.data) && bot.nextMessageId == old(bot.nextMessageId)
  {
    if cb.fromUser != adminId {
      return;
    }
    var edited := bot.Edit(cb.message, AskUserIdToUnblock, NoKeyboard);
    if edited.None? {
      return;
    }
    fsm.SetState(WaitingForUserIdUnblock);
  }

  // ------------------------------------------------------------ statistics

  /** The statistics message: the four counts of get_user_statistics. */
  function StatisticsContent(st: Statistics): Content {
    UserStatistics(st.totalUsers, st.activeUsers, st.blockedUsers, st.totalSessions)
  }

  /** The counts shown are those of the tables: active and blocked users add up to all users. */
  lemma StatisticsShown(users: seq<User>, sessions: seq<Session>)
    ensures var c := StatisticsContent(GetUserStatistics(users, sessions));
      c.totalUsers == |users| && c.totalSessions == |sessions| &&
      c.activeUsers + c.blockedUsers == c.totalUsers && c.blockedUsers == |GetBlockedUsers(users)|
  {
    StatisticsAddUp(users, sessions);
  }

  /** show_user_statistics(callback) */
  method ShowUserStatistics(cb: Callback, db: Database, bot: Bot, adminId: int)
    modifies bot
    ensures bot.log == old(bot.log) +
      (if cb.fromUser == adminId
       then [EditMessage(cb.message, StatisticsContent(GetUserStatistics(db.users, db.sessions)), UserStatisticsMenu)]
       else [])
    ensures bot.nextMessageId == old(bot.nextMessageId)
  {
    if cb.fromUser != adminId {
      return;
    }
    var stats := GetUserStatistics(db.users, db.sessions);
    var _ := bot.Edit(cb.message, StatisticsContent(stats), UserStatisticsMenu);
  }

  /** refresh_statistics: the statistics shown again, under the same administrator check. */
  method RefreshStatistics(cb: Callback, db: Database, bot: Bot, adminId: int)
    modifies bot
    ensures bot.log == old(bot.log) +
      (if cb.fromUser == adminId
       then [EditMessage(cb.message, StatisticsContent(GetUserStatistics(db.users, db.sessions)), UserStatisticsMenu)]
       else [])
    ensures bot.nextMessageId == old(bot.nextMessageId)
  {
    ShowUserStatistics(cb, db, bot, adminId);
  }
}
