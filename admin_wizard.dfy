/**
 * The administrator's typed answers: the id of the user to block, the
 * reason for the block, and the id of the user to unblock. These handlers
 * register nothing with the message cleaner.
 */
module AdminWizard {
  import opened Wrappers
  import opened Text
  import opened Tables
  import opened Transport
  import opened Fsm
  import opened Store

  /**
   * process_user_id_for_block: a text that is not all digits is refused
   * and the state kept; otherwise the id is stored and, once the reason
   * prompt is delivered, WaitingForBlockReason entered.
   */
  method ProcessUserIdForBlock(msg: Incoming, fsm: FsmContext, bot: Bot)
    requires fsm.state == Some(WaitingForUserId)
    modifies fsm, bot
    ensures var digits := IsDigits(msg.text);
      bot.log == old(bot.log) + [SendMessage(msg.chatId, if digits then AskBlockReason else InvalidUserId, NoKeyboard)]
      && fsm.data == (if digits then old(fsm.data)["user_id" := Int(DigitsValue(msg.text))] else old(fsm.data))
      && fsm.state == (if digits && msg.chatId !in bot.unreachable then Some(WaitingForBlockReason) else Some(WaitingForUserId))
  {
    if !IsDigits(msg.text) {
      var _ := bot.Send(msg.chatId, InvalidUserId, NoKeyboard);
      return;
    }
    var userId := DigitsValue(msg.text);
    fsm.UpdateData("user_id", Int(userId));
    var sent := bot.Send(msg.chatId, AskBlockReason, NoKeyboard);
    if sent.None? {
      return;
    }
    fsm.SetState(WaitingForBlockReason);
  }

  /** user_data['user_id'] as the block handler reads it; None where the lookup raises or holds no integer. */
  function StoredUserId(data: map<string, Value>): Option<int> {
    if "user_id" in data && data["user_id"].Int? then Some(data["user_id"].i) else None
  }

  /**
   * process_block_reason: the whole text is the reason. With an id stored,
   * that user is blocked, the conversation cleared and the block
   * confirmed with the user-management keyboard; without one the handler
   * raises before it does anything.
   */
  method ProcessBlockReason(msg: Incoming, fsm: FsmContext, db: Database, bot: Bot)
    requires fsm.state == Some(WaitingForBlockReason)
    requires db.Valid()
    modifies fsm, db, bot
    ensures db.Valid()
    ensures db.sessions == old(db.sessions) && db.participants == old(db.participants)
    ensures db.confirmations == old(db.confirmations) && db.events == old(db.events)
    ensures match StoredUserId(old(fsm.data))
      case None =>
        db.users == old(db.users) && bot.log == old(bot.log)
        && fsm.state == old(fsm.state) && fsm.data == old(fsm.data)
      case Some(userId) =>
        db.users == BlockUser(old(db.users), userId, msg.text)
        && fsm.state == None && fsm.data == map[]
        && bot.log == old(bot.log) + [SendMessage(msg.chatId, UserBlocked(userId, msg.text), UserManagement)]
  {
    var reason := msg.text;
    var userId := StoredUserId(fsm.data);
    if userId.None? {
      return;
    }
    db.BlockUser(userId.value, reason);
    fsm.Clear();
    var _ := bot.Send(msg.chatId, UserBlocked(userId.value, reason), UserManagement);
  }

  /**
   * process_user_id_for_unblock: a text that is not all digits is refused
   * and the state kept; otherwise that user is unblocked, the conversation
   * cleared and the unblock confirmed.
   */
  method ProcessUserIdForUnblock(msg: Incoming, fsm: FsmContext, db: Database, bot: Bot)
    requires fsm.state == Some(WaitingForUserIdUnblock)
    requires db.Valid()
    modifies fsm, db, bot
    ensures db.Valid()
    ensures db.sessions == old(db.sessions) && db.participants == old(db.participants)
    ensures db.confirmations == old(db.confirmations) && db.events == old(db.events)
    ensures if IsDigits(msg.text) then
        db.users == UnblockUser(old(db.users), DigitsValue(msg.text))
        && fsm.state == None && fsm.data == map[]
        && bot.log == old(bot.log) + [SendMessage(msg.chatId, UserUnblocked(DigitsValue(msg.text)), UserManagement)]
      else
        db.users == old(db.users) && fsm.state == old(fsm.state) && fsm.data == old(fsm.data)
        && bot.log == old(bot.log) + [SendMessage(msg.chatId, InvalidUserId, NoKeyboard)]
  {
    if !IsDigits(msg.text) {
      var _ := bot.Send(msg.chatId, InvalidUserId, NoKeyboard);
      return;
    }
    var userId := DigitsValue(msg.text);
    db.UnblockUser(userId);
    fsm.Clear();
    var _ := bot.Send(msg.chatId, UserUnblocked(userId), UserManagement);
  }

  /**
   * Blocking and then unblocking a known user gives back its row with the
   * flag cleared and no reason, and touches no other row; for a user who
   * was not blocked that is the row it had before.
   */
  lemma {:induction false} BlockThenUnblock(users: seq<User>, id: int, reason: string, k: int)
    requires UsersOrdered(users)
    ensures var after := FindUser(UnblockUser(BlockUser(users, id, reason), id), k);
      after == if k == id && FindUser(users, id).Some? then Some(FindUser(users, id).value.(isBlocked := false, blockReason := None))
               else FindUser(users, k)
    ensures FindUser(users, id).Some? && !FindUser(users, id).value.isBlocked && FindUser(users, id).value.blockReason.None? ==>
      FindUser(UnblockUser(BlockUser(users, id, reason), id), id) == FindUser(users, id)
  {
    var blocked := BlockUser(users, id, reason);
    BlockUserFind(users, id, reason, k);
    BlockUserFind(users, id, reason, id);
    UnblockUserFind(blocked, id, k);
    UnblockUserFind(blocked, id, id);
  }

  /**
   * Every id typed as its digits, with any number of leading zeros, passes
   * isdigit and int() reads it back as that id; a text with any other
   * character is refused.
   */
  lemma UserIdReadsBack(id: nat, zeros: nat, text: string)
    ensures IsDigits(Zeros(zeros) + NatToString(id)) && DigitsValue(Zeros(zeros) + NatToString(id)) == id
    ensures (exists i :: 0 <= i < |text| && !IsDigit(text[i])) ==> !IsDigits(text)
  {
    LeadingZeros(zeros, NatToString(id));
  }
}
