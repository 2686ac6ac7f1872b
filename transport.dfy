/**
 * The Telegram side as the handlers see it: incoming messages and button
 * presses, and a bot whose send, edit and delete calls may fail. Which
 * calls fail is fixed by two sets: the chats every send and edit to fails,
 * and the messages every delete of fails. Failure is therefore decided per
 * chat or per message for the whole run, not per call. Message texts are
 * abstracted to a tag with the data the text is built from; keyboards to
 * the callback data of their buttons or to the name of the fixed keyboard.
 */
module Transport {
  import opened Wrappers

  /** (chat id, message id): what the bot needs to edit or delete a message. */
  datatype Handle = Handle(chatId: int, messageId: int)

  /** An incoming text message. */
  datatype Incoming = Incoming(chatId: int, messageId: int, fromUser: int, username: Option<string>, fullName: string, text: string)

  function HandleOf(m: Incoming): Handle {
    Handle(m.chatId, m.messageId)
  }

  /** A button press: who pressed, the button's callback data, and the message that carried the button. */
  datatype Callback = Callback(fromUser: int, username: Option<string>, fullName: string, data: string, message: Handle)

  /** What a message says. */
  datatype Content =
    | AskGameName | AskDate | InvalidDate | AskTime | InvalidTime | TimeNotInFuture | AskMaxPlayers | NotANumber
    | SessionCreated(sessionId: int, game: string, date: string, time: string, maxPlayers: int)
    | NoSessions | SessionsList(text: string)
    | SessionDetails(sessionId: int, game: string, date: string, time: string, maxPlayers: int, currentPlayers: nat,
                     creatorName: string, participants: seq<(string, Option<string>)>)
    | Reminder(game: string, date: string, time: string)
    | ConfirmedAck | ParticipantConfirmed(fullName: string, username: Option<string>, game: string, date: string, time: string)
    | DeclinedAck | ParticipantDeclined(fullName: string, username: Option<string>, game: string, date: string, time: string)
    | InvalidName | AskAge | InvalidAge | Registered(name: string, age: int, username: Option<string>) | RegistrationFailed
    | WhatToChange | AskNewName | AskNewAge | NameUpdated | AgeUpdated | EditCancelled
    | AskUserIdToBlock | AskUserIdToUnblock | InvalidUserId | AskBlockReason
    | UserBlocked(userId: int, reason: string) | UserUnblocked(userId: int)
    | UserList(text: string) | UserListPart(text: string) | NoBlockedUsers | BlockedUserList(text: string)
    | UserStatistics(totalUsers: nat, activeUsers: nat, blockedUsers: nat, totalSessions: nat)

  /** The keyboard attached to a message: inline buttons by callback data, or one of the fixed menus. */
  datatype Keyboard =
    | NoKeyboard
    | Buttons(data: seq<string>)
    | MainMenu(forUser: int)
    | BackToMenu(forUser: int)
    | EditProfileMenu
    | UserManagement
    | UserStatisticsMenu

  /** A call the bot makes. */
  datatype Request =
    | SendMessage(chatId: int, content: Content, keyboard: Keyboard)
    | EditMessage(target: Handle, content: Content, keyboard: Keyboard)
    | DeleteMessage(target: Handle)

  /**
   * The bot account: its own user id (the sender of every message it
   * wrote), the chats a send or edit to fails, the messages a delete of
   * fails, the log of every call attempted, and the id the next message
   * sent will carry.
   */
  class Bot {
    const id: int
    const unreachable: set<int>
    const undeletable: set<Handle>
    var log: seq<Request>
    var nextMessageId: int

    constructor(id: int, unreachable: set<int>, undeletable: set<Handle>, firstMessageId: int)
      ensures this.id == id && this.unreachable == unreachable && this.undeletable == undeletable
      ensures log == [] && nextMessageId == firstMessageId
    {
      this.id := id;
      this.unreachable := unreachable;
      this.undeletable := undeletable;
      log := [];
      nextMessageId := firstMessageId;
    }

    /** send_message / message.answer: the sent message, or None where the call raises. */
    method Send(chatId: int, content: Content, keyboard: Keyboard) returns (r: Option<Handle>)
      modifies this
      ensures log == old(log) + [SendMessage(chatId, content, keyboard)]
      ensures chatId in unreachable ==> r.None? && nextMessageId == old(nextMessageId)
      ensures chatId !in unreachable ==> r == Some(Handle(chatId, old(nextMessageId))) && nextMessageId == old(nextMessageId) + 1
    {
      log := log + [SendMessage(chatId, content, keyboard)];
      if chatId in unreachable {
        r := None;
      } else {
        r := Some(Handle(chatId, nextMessageId));
        nextMessageId := nextMessageId + 1;
      }
    }

    /** edit_text on a message: the edited message, or None where the call raises. */
    method Edit(target: Handle, content: Content, keyboard: Keyboard) returns (r: Option<Handle>)
      modifies this
      ensures log == old(log) + [EditMessage(target, content, keyboard)]
      ensures r == if target.chatId in unreachable then None else Some(target)
      ensures nextMessageId == old(nextMessageId)
    {
      log := log + [EditMessage(target, content, keyboard)];
      r := if target.chatId in unreachable then None else Some(target);
    }

    /** delete_message: whether it succeeded. */
    method Delete(target: Handle) returns (ok: bool)
      modifies this
      ensures log == old(log) + [DeleteMessage(target)]
      ensures ok == (target !in undeletable)
      ensures nextMessageId == old(nextMessageId)
    {
      log := log + [DeleteMessage(target)];
      ok := target !in undeletable;
    }
  }
}
