/**
 * MessageCleaner: for each user, the messages to delete at the next flush,
 * in the order they were registered.
 */
module Cleaner {
  import opened Transport

  /** The window of a user; a user without an entry has an empty one. */
  function WindowOf(m: map<int, seq<Handle>>, user: int): seq<Handle> {
    if user in m then m[user] else []
  }

  /** The map after registering h for user: appended at the end, the entry created if absent. */
  function Appended(m: map<int, seq<Handle>>, user: int, h: Handle): map<int, seq<Handle>> {
    m[user := WindowOf(m, user) + [h]]
  }

  /** The map after a flush of user: the entry reset to empty, and not created if absent. */
  function Flushed(m: map<int, seq<Handle>>, user: int): map<int, seq<Handle>> {
    if user in m then m[user := []] else m
  }

  /** The delete calls a flush makes: one per handle, in window order. */
  function Deletions(hs: seq<Handle>): (r: seq<Request>)
    ensures |r| == |hs|
    ensures forall i :: 0 <= i < |hs| ==> r[i] == DeleteMessage(hs[i])
  {
    if |hs| == 0 then [] else [DeleteMessage(hs[0])] + Deletions(hs[1..])
  }

  /** Registering takes the handle to the end of that user's window and changes no other window. */
  lemma AppendedWindows(m: map<int, seq<Handle>>, user: int, h: Handle, other: int)
    ensures WindowOf(Appended(m, user, h), user) == WindowOf(m, user) + [h]
    ensures user in Appended(m, user, h)
    ensures other != user ==>
      WindowOf(Appended(m, user, h), other) == WindowOf(m, other) && (other in Appended(m, user, h) <==> other in m)
  {
  }

  /**
   * A flush leaves the user's window empty, creates no entry for a user
   * without one, changes no other window, and a second flush deletes nothing.
   */
  lemma FlushedWindows(m: map<int, seq<Handle>>, user: int, other: int)
    ensures WindowOf(Flushed(m, user), user) == []
    ensures user !in m ==> Flushed(m, user) == m
    ensures other != user ==>
      WindowOf(Flushed(m, user), other) == WindowOf(m, other) && (other in Flushed(m, user) <==> other in m)
    ensures Flushed(Flushed(m, user), user) == Flushed(m, user)
    ensures Deletions(WindowOf(Flushed(m, user), user)) == []
  {
  }

  lemma {:induction false} DeletionsAppend(hs: seq<Handle>, h: Handle)
    ensures Deletions(hs + [h]) == Deletions(hs) + [DeleteMessage(h)]
    decreases |hs|
  {
    if |hs| > 0 {
      DeletionsAppend(hs[1..], h);
      assert (hs + [h])[1..] == hs[1..] + [h];
    }
  }

  class MessageCleaner {
    var messageIds: map<int, seq<Handle>>

    constructor()
      ensures messageIds == map[]
    {
      messageIds := map[];
    }

    function Window(user: int): seq<Handle>
      reads this
    {
      WindowOf(messageIds, user)
    }

    /** add_message_to_delete(user_id, message): the message's (chat id, message id). */
    method AddMessageToDelete(user: int, h: Handle)
      modifies this
      ensures messageIds == Appended(old(messageIds), user, h)
    {
      if user !in messageIds {
        messageIds := messageIds[user := []];
      }
      messageIds := messageIds[user := messageIds[user] + [h]];
    }

    /** add_user_message(message): the incoming message, under its sender. */
    method AddUserMessage(m: Incoming)
      modifies this
      ensures messageIds == Appended(old(messageIds), m.fromUser, HandleOf(m))
    {
      var user := m.fromUser;
      if user !in messageIds {
        messageIds := messageIds[user := []];
      }
      messageIds := messageIds[user := messageIds[user] + [HandleOf(m)]];
    }

    /**
     * delete_previous_messages(bot, user_id): one delete per handle of the
     * window in order, a failed delete skipped, then the window emptied.
     */
    method DeletePreviousMessages(bot: Bot, user: int)
      modifies this, bot
      ensures messageIds == Flushed(old(messageIds), user)
      ensures bot.log == old(bot.log) + Deletions(old(Window(user)))
      ensures bot.nextMessageId == old(bot.nextMessageId)
    {
      if user in messageIds {
        var window := messageIds[user];
        var i := 0;
        while i < |window|
          invariant 0 <= i <= |window|
          invariant bot.log == old(bot.log) + Deletions(window[..i])
          invariant bot.nextMessageId == old(bot.nextMessageId)
          invariant messageIds == old(messageIds)
        {
          var _ := bot.Delete(window[i]);
          DeletionsAppend(window[..i], window[i]);
          assert window[..i + 1] == window[..i] + [window[i]];
          i := i + 1;
        }
        assert window[..i] == window;
        messageIds := messageIds[user := []];
      }
    }
  }

  /** The windows after an answer to chatId that is registered for user when it is delivered. */
  function Answered(m: map<int, seq<Handle>>, user: int, chatId: int, unreachable: set<int>, next: int): map<int, seq<Handle>> {
    if chatId in unreachable then m else Appended(m, user, Handle(chatId, next))
  }

  /**
   * response = await message.answer(...) followed by
   * add_message_to_delete(user_id, response). A failed send raises out of
   * the handler, so ok == false tells the caller to stop.
   */
  method Answer(bot: Bot, cleaner: MessageCleaner, chatId: int, user: int, content: Content, keyboard: Keyboard) returns (ok: bool)
    modifies bot, cleaner
    ensures ok == (chatId !in bot.unreachable)
    ensures bot.log == old(bot.log) + [SendMessage(chatId, content, keyboard)]
    ensures cleaner.messageIds == Answered(old(cleaner.messageIds), user, chatId, bot.unreachable, old(bot.nextMessageId))
    ensures bot.nextMessageId == old(bot.nextMessageId) + (if ok then 1 else 0)
  {
    var response := bot.Send(chatId, content, keyboard);
    ok := response.Some?;
    if ok {
      cleaner.AddMessageToDelete(user, response.value);
    }
  }
}
