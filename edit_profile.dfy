/**
 * Editing one's profile: the field menu, the prompt for a new name or age,
 * the typed answer, and cancelling. Here the message window does its work:
 * an accepted answer flushes the prompts and the user's own messages, and
 * only the confirmation stays behind.
 */
module EditProfile {
  import opened Wrappers
  import opened Tables
  import opened Text
  import opened Transport
  import opened Cleaner
  import opened Fsm
  import opened Store
  import opened Validators

  /** The windows after a flush of user followed by an answer to chatId registered for the same user. */
  function FlushedThenAnswered(m: map<int, seq<Handle>>, user: int, chatId: int, unreachable: set<int>, next: int): map<int, seq<Handle>> {
    Answered(Flushed(m, user), user, chatId, unreachable, next)
  }

  /**
   * start_edit_profile: the pressed message becomes the field menu and is
   * registered for deletion; ChoosingField once the edit succeeds.
   */
  method StartEditProfile(cb: Callback, fsm: FsmContext, bot: Bot, cleaner: MessageCleaner)
    modifies fsm, bot, cleaner
    ensures bot.log == old(bot.log) + [EditMessage(cb.message, WhatToChange, EditProfileMenu)]
    ensures bot.nextMessageId == old(bot.nextMessageId) && fsm.data == old(fsm.data)
    ensures cb.message.chatId in bot.unreachable ==> cleaner.messageIds == old(cleaner.messageIds) && fsm.state == old(fsm.state)
    ensures cb.message.chatId !in bot.unreachable ==>
      cleaner.messageIds == Appended(old(cleaner.messageIds), cb.fromUser, cb.message) && fsm.state == Some(ChoosingField)
  {
    var response := bot.Edit(cb.message, WhatToChange, EditProfileMenu);
    if response.None? {
      return;
    }
    cleaner.AddMessageToDelete(cb.fromUser, response.value);
    fsm.SetState(ChoosingField);
  }

  /** The prompt and the state that each field button leads to. */
  function FieldPrompt(field: State): Content {
    if field == EditingName then AskNewName else AskNewAge
  }

  /**
   * edit_name and edit_age, in ChoosingField: the window is flushed, the
   * prompt sent and registered, and the editing state entered once the
   * prompt is delivered.
   */
  method ChooseField(cb: Callback, fsm: FsmContext, bot: Bot, cleaner: MessageCleaner, field: State)
    requires fsm.state == Some(ChoosingField)
    requires field == EditingName || field == EditingAge
    modifies fsm, bot, cleaner
    ensures bot.log == old(bot.log) + Deletions(old(cleaner.Window(cb.fromUser)))
                                    + [SendMessage(cb.message.chatId, FieldPrompt(field), NoKeyboard)]
    ensures cleaner.messageIds == FlushedThenAnswered(old(cleaner.messageIds), cb.fromUser, cb.message.chatId, bot.unreachable, old(bot.nextMessageId))
    ensures fsm.state == (if cb.message.chatId in bot.unreachable then Some(ChoosingField) else Some(field))
    ensures fsm.data == old(fsm.data)
  {
    cleaner.DeletePreviousMessages(bot, cb.fromUser);
    var ok := Answer(bot, cleaner, cb.message.chatId, cb.fromUser, FieldPrompt(field), NoKeyboard);
    if !ok {
      return;
    }
    fsm.SetState(field);
  }

  /** edit_name */
  method EditName(cb: Callback, fsm: FsmContext, bot: Bot, cleaner: MessageCleaner)
    requires fsm.state == Some(ChoosingField)
    modifies fsm, bot, cleaner
    ensures bot.log == old(bot.log) + Deletions(old(cleaner.Window(cb.fromUser)))
                                    + [SendMessage(cb.message.chatId, AskNewName, NoKeyboard)]
    ensures cleaner.messageIds == FlushedThenAnswered(old(cleaner.messageIds), cb.fromUser, cb.message.chatId, bot.unreachable, old(bot.nextMessageId))
    ensures fsm.state == (if cb.message.chatId in bot.unreachable then Some(ChoosingField) else Some(EditingName))
    ensures fsm.data == old(fsm.data)
  {
    ChooseField(cb, fsm, bot, cleaner, EditingName);
  }

  /** edit_age */
  method EditAge(cb: Callback, fsm: FsmContext, bot: Bot, cleaner: MessageCleaner)
    requires fsm.state == Some(ChoosingField)
    modifies fsm, bot, cleaner
    ensures bot.log == old(bot.log) + Deletions(old(cleaner.Window(cb.fromUser)))
                                    + [SendMessage(cb.message.chatId, AskNewAge, NoKeyboard)]
    ensures cleaner.messageIds == FlushedThenAnswered(old(cleaner.messageIds), cb.fromUser, cb.message.chatId, bot.unreachable, old(bot.nextMessageId))
    ensures fsm.state == (if cb.message.chatId in bot.unreachable then Some(ChoosingField) else Some(EditingAge))
    ensures fsm.data == old(fsm.data)
  {
    ChooseField(cb, fsm, bot, cleaner, EditingAge);
  }

  /** The requests of an accepted answer: the window, the answer included, deleted, then the confirmation. */
  function AcceptedRequests(m: map<int, seq<Handle>>, msg: Incoming, confirmation: Content): seq<Request> {
    Deletions(WindowOf(Appended(m, msg.fromUser, HandleOf(msg)), msg.fromUser))
    + [SendMessage(msg.chatId, confirmation, MainMenu(msg.fromUser))]
  }

  /**
   * process_new_name: the answer is registered; an accepted name is written
   * to the user's row, the window flushed, the confirmation sent with the
   * main menu and, once delivered, registered and the conversation
   * cleared; a refused name is answered and registered, and the state kept.
   */
  method ProcessNewName(msg: Incoming, fsm: FsmContext, db: Database, bot: Bot, cleaner: MessageCleaner)
    requires fsm.state == Some(EditingName)
    requires db.Valid()
    modifies fsm, db, bot, cleaner
    ensures db.Valid()
    ensures db.sessions == old(db.sessions) && db.participants == old(db.participants)
    ensures db.confirmations == old(db.confirmations) && db.events == old(db.events)
    ensures var registered := Appended(old(cleaner.messageIds), msg.fromUser, HandleOf(msg));
      if IsValidRussianName(msg.text) then
        db.users == UpdateUserInfo(old(db.users), msg.fromUser, Some(msg.text), None)
        && bot.log == old(bot.log) + AcceptedRequests(old(cleaner.messageIds), msg, NameUpdated)
        && cleaner.messageIds == FlushedThenAnswered(registered, msg.fromUser, msg.chatId, bot.unreachable, old(bot.nextMessageId))
        && (if msg.chatId in bot.unreachable then fsm.state == old(fsm.state) && fsm.data == old(fsm.data)
            else fsm.state == None && fsm.data == map[])
      else
        db.users == old(db.users)
        && bot.log == old(bot.log) + [SendMessage(msg.chatId, InvalidName, NoKeyboard)]
        && cleaner.messageIds == Answered(registered, msg.fromUser, msg.chatId, bot.unreachable, old(bot.nextMessageId))
        && fsm.state == old(fsm.state) && fsm.data == old(fsm.data)
  {
    cleaner.AddUserMessage(msg);
    if IsValidRussianName(msg.text) {
      db.UpdateUserInfo(msg.fromUser, Some(msg.text), None);
      cleaner.DeletePreviousMessages(bot, msg.fromUser);
      var ok := Answer(bot, cleaner, msg.chatId, msg.fromUser, NameUpdated, MainMenu(msg.fromUser));
      if !ok {
        return;
      }
      fsm.Clear();
    } else {
      var _ := Answer(bot, cleaner, msg.chatId, msg.fromUser, InvalidName, NoKeyboard);
    }
  }

  /** process_new_age: the same with is_valid_age and the age written as the integer the digits spell. */
  method ProcessNewAge(msg: Incoming, fsm: FsmContext, db: Database, bot: Bot, cleaner: MessageCleaner)
    requires fsm.state == Some(EditingAge)
    requires db.Valid()
    modifies fsm, db, bot, cleaner
    ensures db.Valid()
    ensures db.sessions == old(db.sessions) && db.participants == old(db.participants)
    ensures db.confirmations == old(db.confirmations) && db.events == old(db.events)
    ensures var registered := Appended(old(cleaner.messageIds), msg.fromUser, HandleOf(msg));
      if IsValidAge(msg.text) then
        db.users == UpdateUserInfo(old(db.users), msg.fromUser, None, Some(DigitsValue(msg.text)))
        && bot.log == old(bot.log) + AcceptedRequests(old(cleaner.messageIds), msg, AgeUpdated)
        && cleaner.messageIds == FlushedThenAnswered(registered, msg.fromUser, msg.chatId, bot.unreachable, old(bot.nextMessageId))
        && (if msg.chatId in bot.unreachable then fsm.state == old(fsm.state) && fsm.data == old(fsm.data)
            else fsm.state == None && fsm.data == map[])
      else
        db.users == old(db.users)
        && bot.log == old(bot.log) + [SendMessage(msg.chatId, InvalidAge, NoKeyboard)]
        && cleaner.messageIds == Answered(registered, msg.fromUser, msg.chatId, bot.unreachable, old(bot.nextMessageId))
        && fsm.state == old(fsm.state) && fsm.data == old(fsm.data)
  {
    cleaner.AddUserMessage(msg);
    if IsValidAge(msg.text) {
      db.UpdateUserInfo(msg.fromUser, None, Some(DigitsValue(msg.text)));
      cleaner.DeletePreviousMessages(bot, msg.fromUser);
      var ok := Answer(bot, cleaner, msg.chatId, msg.fromUser, AgeUpdated, MainMenu(msg.fromUser));
      if !ok {
        return;
      }
      fsm.Clear();
    } else {
      var _ := Answer(bot, cleaner, msg.chatId, msg.fromUser, InvalidAge, NoKeyboard);
    }
  }

  /**
   * cancel_edit: the window flushed and the conversation cleared, then the
   * notice sent with the main menu and registered.
   */
  method CancelEdit(cb: Callback, fsm: FsmContext, bot: Bot, cleaner: MessageCleaner)
    modifies fsm, bot, cleaner
    ensures bot.log == old(bot.log) + Deletions(old(cleaner.Window(cb.fromUser)))
                                    + [SendMessage(cb.message.chatId, EditCancelled, MainMenu(cb.fromUser))]
    ensures cleaner.messageIds == FlushedThenAnswered(old(cleaner.messageIds), cb.fromUser, cb.message.chatId, bot.unreachable, old(bot.nextMessageId))
    ensures fsm.state == None && fsm.data == map[]
  {
    cleaner.DeletePreviousMessages(bot, cb.fromUser);
    fsm.Clear();
    var _ := Answer(bot, cleaner, cb.message.chatId, cb.fromUser, EditCancelled, MainMenu(cb.fromUser));
  }

  /**
   * An accepted answer deletes every message of the window and the answer
   * itself last, and afterwards the window holds the confirmation alone,
   * or nothing where it could not be sent; other users' windows are as
   * they were.
   */
  lemma AcceptedAnswerCleansUp(m: map<int, seq<Handle>>, msg: Incoming, confirmation: Content, unreachable: set<int>, next: int, other: int)
    ensures var rs := AcceptedRequests(m, msg, confirmation);
      var dels := rs[..|rs| - 1];
      |dels| == |WindowOf(m, msg.fromUser)| + 1
      && (forall i :: 0 <= i < |WindowOf(m, msg.fromUser)| ==> dels[i] == DeleteMessage(WindowOf(m, msg.fromUser)[i]))
      && dels[|dels| - 1] == DeleteMessage(HandleOf(msg))
    ensures var after := FlushedThenAnswered(Appended(m, msg.fromUser, HandleOf(msg)), msg.fromUser, msg.chatId, unreachable, next);
      WindowOf(after, msg.fromUser) == (if msg.chatId in unreachable then [] else [Handle(msg.chatId, next)])
      && (other != msg.fromUser ==> WindowOf(after, other) == WindowOf(m, other))
  {
    var user := msg.fromUser;
    var window := WindowOf(m, user);
    AppendedWindows(m, user, HandleOf(msg), other);
    DeletionsAppend(window, HandleOf(msg));
    var registered := Appended(m, user, HandleOf(msg));
    FlushedWindows(registered, user, other);
    AppendedWindows(Flushed(registered, user), user, Handle(msg.chatId, next), other);
    var rs := AcceptedRequests(m, msg, confirmation);
    assert rs[..|rs| - 1] == Deletions(window) + [DeleteMessage(HandleOf(msg))];
  }

  /**
   * A new name changes that user's name and nothing else, and a new age
   * that user's age and nothing else; the block flag and reason stay.
   */
  lemma EditChangesOneField(users: seq<User>, id: int, name: string, age: int, k: int)
    requires UsersOrdered(users) && FindUser(users, id).Some?
    ensures FindUser(UpdateUserInfo(users, id, Some(name), None), id) == Some(FindUser(users, id).value.(name := name))
    ensures FindUser(UpdateUserInfo(users, id, None, Some(age)), id) == Some(FindUser(users, id).value.(age := age))
    ensures k != id ==>
      FindUser(UpdateUserInfo(users, id, Some(name), None), k) == FindUser(users, k)
      && FindUser(UpdateUserInfo(users, id, None, Some(age)), k) == FindUser(users, k)
  {
    UpdateUserInfoFind(users, id, Some(name), None, id);
    UpdateUserInfoFind(users, id, None, Some(age), id);
    UpdateUserInfoFind(users, id, Some(name), None, k);
    UpdateUserInfoFind(users, id, None, Some(age), k);
  }
}
