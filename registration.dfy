/**
 * The registration wizard: a Russian name, then an age, and then the user
 * is saved. The conversation is cleared before the save is attempted, so a
 * failed save leaves no wizard to return to.
 */
module Registration {
  import opened Wrappers
  import opened Text
  import opened Tables
  import opened Transport
  import opened Fsm
  import opened Store
  import opened Validators

  /** A possibly missing username as update_data stores it. */
  function UsernameValue(username: Option<string>): Value {
    match username
    case Some(u) => Str(u)
    case None => Null
  }

  /** The data after process_name accepts msg: name, username and user_id, as one update_data call writes them. */
  function NameStored(data: map<string, Value>, msg: Incoming): map<string, Value> {
    data["name" := Str(msg.text)]["username" := UsernameValue(msg.username)]["user_id" := Int(msg.fromUser)]
  }

  /**
   * process_name: a name that is_valid_russian_name refuses is answered and
   * nothing stored; an accepted one is stored with the sender's username and
   * id, and WaitingForAge entered once the age prompt is delivered.
   */
  method ProcessName(msg: Incoming, fsm: FsmContext, bot: Bot)
    requires fsm.state == Some(WaitingForName)
    modifies fsm, bot
    ensures var valid := IsValidRussianName(msg.text);
      bot.log == old(bot.log) + [SendMessage(msg.chatId, if valid then AskAge else InvalidName, NoKeyboard)]
      && fsm.data == (if valid then NameStored(old(fsm.data), msg) else old(fsm.data))
      && fsm.state == (if valid && msg.chatId !in bot.unreachable then Some(WaitingForAge) else Some(WaitingForName))
  {
    if !IsValidRussianName(msg.text) {
      var _ := bot.Send(msg.chatId, InvalidName, NoKeyboard);
      return;
    }
    fsm.UpdateData("name", Str(msg.text));
    fsm.UpdateData("username", UsernameValue(msg.username));
    fsm.UpdateData("user_id", Int(msg.fromUser));
    var sent := bot.Send(msg.chatId, AskAge, NoKeyboard);
    if sent.None? {
      return;
    }
    fsm.SetState(WaitingForAge);
  }

  /**
   * user_data['name'], user_data['username'] and user_data['user_id']: the
   * three values save_user is called with, or None where a lookup raises or
   * a value is not of the kind process_name stores.
   */
  function SavedFields(data: map<string, Value>): Option<(string, Option<string>, int)> {
    if "name" in data && "username" in data && "user_id" in data
       && data["name"].Str? && !data["username"].Int? && data["user_id"].Int?
    then
      Some((data["name"].s, if data["username"].Str? then Some(data["username"].s) else None, data["user_id"].i))
    else None
  }

  /**
   * process_age, with saveFails standing for a database error inside
   * save_user. An invalid age is answered and the state kept. A valid one
   * clears the conversation first; then the user is saved and greeted with
   * the main menu, or, where the lookup or the save raises, the failure is
   * reported. A greeting that cannot be sent is caught by the same handler,
   * which then tries to report the failure.
   */
  method ProcessAge(msg: Incoming, fsm: FsmContext, db: Database, bot: Bot, saveFails: bool)
    requires fsm.state == Some(WaitingForAge)
    requires db.Valid()
    modifies fsm, db, bot
    ensures db.Valid()
    ensures db.sessions == old(db.sessions) && db.participants == old(db.participants)
    ensures db.confirmations == old(db.confirmations) && db.events == old(db.events)
    ensures !IsValidAge(msg.text) ==>
      db.users == old(db.users) && fsm.state == old(fsm.state) && fsm.data == old(fsm.data)
      && bot.log == old(bot.log) + [SendMessage(msg.chatId, InvalidAge, NoKeyboard)]
    ensures IsValidAge(msg.text) ==> fsm.state == None && fsm.data == map[]
    ensures IsValidAge(msg.text) && (SavedFields(old(fsm.data)).None? || saveFails) ==>
      db.users == old(db.users) && bot.log == old(bot.log) + [SendMessage(msg.chatId, RegistrationFailed, NoKeyboard)]
    ensures IsValidAge(msg.text) && SavedFields(old(fsm.data)).Some? && !saveFails ==>
      var (name, username, userId) := SavedFields(old(fsm.data)).value;
      var greeting := SendMessage(msg.chatId, Registered(name, DigitsValue(msg.text), username), MainMenu(msg.fromUser));
      db.users == SaveUser(old(db.users), userId, name, DigitsValue(msg.text), username)
      && bot.log == old(bot.log) + [greeting] +
         (if msg.chatId in bot.unreachable then [SendMessage(msg.chatId, RegistrationFailed, NoKeyboard)] else [])
  {
    if !IsValidAge(msg.text) {
      var _ := bot.Send(msg.chatId, InvalidAge, NoKeyboard);
      return;
    }
    var age := DigitsValue(msg.text);
    var userData := fsm.data;
    fsm.Clear();
    var fields := SavedFields(userData);
    if fields.None? || saveFails {
      var _ := bot.Send(msg.chatId, RegistrationFailed, NoKeyboard);
      return;
    }
    var (name, username, userId) := fields.value;
    db.SaveUser(name, age, username, userId);
    var sent := bot.Send(msg.chatId, Registered(name, age, username), MainMenu(msg.fromUser));
    if sent.None? {
      var _ := bot.Send(msg.chatId, RegistrationFailed, NoKeyboard);
    }
  }

  /**
   * What the name step stores is what the age step saves: the name typed,
   * the username and the id of its sender, whatever the data held before.
   */
  lemma NameStepFeedsSave(data: map<string, Value>, msg: Incoming)
    ensures SavedFields(NameStored(data, msg)) == Some((msg.text, msg.username, msg.fromUser))
  {
    var stored := NameStored(data, msg);
    assert stored["name"] == Str(msg.text);
    assert stored["username"] == UsernameValue(msg.username);
    assert stored["user_id"] == Int(msg.fromUser);
  }

  /**
   * The whole wizard: after an accepted name from one message and a valid
   * age in another, the saved row is that user with that name, age and
   * username, not blocked, and no other row has changed.
   */
  lemma RegistrationSavesUser(users: seq<User>, data: map<string, Value>, nameMsg: Incoming, ageText: string, k: int)
    requires UsersOrdered(users) && IsValidAge(ageText)
    ensures var (name, username, userId) := SavedFields(NameStored(data, nameMsg)).value;
      var after := SaveUser(users, userId, name, DigitsValue(ageText), username);
      FindUser(after, nameMsg.fromUser) == Some(User(nameMsg.fromUser, nameMsg.text, DigitsValue(ageText), nameMsg.username, false, None))
      && (k != nameMsg.fromUser ==> FindUser(after, k) == FindUser(users, k))
  {
    NameStepFeedsSave(data, nameMsg);
    var u := User(nameMsg.fromUser, nameMsg.text, DigitsValue(ageText), nameMsg.username, false, None);
    UpsertFind(users, u, nameMsg.fromUser);
    UpsertFind(users, u, k);
  }
}
