/**
 * The SessionCreation wizard: a game name, a date, a time and a player
 * limit, typed one message at a time, and then the session is created
 * with its creator as the first participant. Every user message and
 * every prompt joins the user's message window.
 */
module SessionWizard {
  import opened Wrappers
  import opened Text
  import opened Calendar
  import opened Seqs
  import opened Tables
  import opened Transport
  import opened Cleaner
  import opened Fsm
  import opened Store
  import opened Validators
  import Queries

  /** The windows after the user's message and the reply to it, both registered for the sender. */
  function AfterExchange(m: map<int, seq<Handle>>, msg: Incoming, unreachable: set<int>, next: int): map<int, seq<Handle>> {
    Answered(Appended(m, msg.fromUser, HandleOf(msg)), msg.fromUser, msg.chatId, unreachable, next)
  }

  /** The wizard stores only text under game, date and time. */
  predicate TextData(data: map<string, Value>) {
    forall k :: k in data ==> (k == "game" || k == "date" || k == "time") ==> data[k].Str?
  }

  // --------------------------------------------------------------- game

  /** process_custom_game: any text is the game name; SettingDate once the date prompt is delivered. */
  method ProcessCustomGame(msg: Incoming, fsm: FsmContext, bot: Bot, cleaner: MessageCleaner)
    requires fsm.state == Some(ChoosingGame)
    modifies fsm, bot, cleaner
    ensures fsm.data == old(fsm.data)["game" := Str(msg.text)]
    ensures TextData(old(fsm.data)) ==> TextData(fsm.data)
    ensures fsm.state == if msg.chatId in bot.unreachable then Some(ChoosingGame) else Some(SettingDate)
    ensures bot.log == old(bot.log) + [SendMessage(msg.chatId, AskDate, NoKeyboard)]
    ensures cleaner.messageIds == AfterExchange(old(cleaner.messageIds), msg, bot.unreachable, old(bot.nextMessageId))
  {
    cleaner.AddUserMessage(msg);
    fsm.UpdateData("game", Str(msg.text));
    var ok := Answer(bot, cleaner, msg.chatId, msg.fromUser, AskDate, NoKeyboard);
    if !ok {
      return;
    }
    fsm.SetState(SettingDate);
  }

  // --------------------------------------------------------------- date

  /**
   * process_date, with today the local date.today(): an invalid date is
   * answered and nothing stored; a valid one is stored, and the state
   * moves to SettingTime once the time prompt is delivered.
   */
  method ProcessDate(msg: Incoming, fsm: FsmContext, bot: Bot, cleaner: MessageCleaner, today: DateTime)
    requires fsm.state == Some(SettingDate)
    modifies fsm, bot, cleaner
    ensures var valid := IsValidDate(msg.text, today);
      fsm.data == (if valid then old(fsm.data)["date" := Str(msg.text)] else old(fsm.data))
      && fsm.state == (if valid && msg.chatId !in bot.unreachable then Some(SettingTime) else Some(SettingDate))
      && bot.log == old(bot.log) + [SendMessage(msg.chatId, if valid then AskTime else InvalidDate, NoKeyboard)]
    ensures TextData(old(fsm.data)) ==> TextData(fsm.data)
    ensures cleaner.messageIds == AfterExchange(old(cleaner.messageIds), msg, bot.unreachable, old(bot.nextMessageId))
  {
    cleaner.AddUserMessage(msg);
    if !IsValidDate(msg.text, today) {
      var _ := Answer(bot, cleaner, msg.chatId, msg.fromUser, InvalidDate, NoKeyboard);
      return;
    }
    fsm.UpdateData("date", Str(msg.text));
    var ok := Answer(bot, cleaner, msg.chatId, msg.fromUser, AskTime, NoKeyboard);
    if !ok {
      return;
    }
    fsm.SetState(SettingTime);
  }

  // --------------------------------------------------------------- time

  /** Python's truth value of a stored value: a non-empty text, a non-zero integer; None is false. */
  predicate Truthy(v: Value) {
    match v
    case Str(s) => |s| > 0
    case Int(i) => i != 0
    case Null => false
  }

  /** The value as an f-string writes it. */
  function Spelled(v: Value): string {
    match v
    case Str(s) => s
    case Int(i) => IntToString(i)
    case Null => "None"
  }

  /** user_data.get('date') */
  function StoredDate(data: map<string, Value>): Value {
    if "date" in data then data["date"] else Null
  }

  /**
   * datetime.strptime(f"{date} {time}", "%Y-%m-%d %H:%M"), read as the
   * date part and the time part each parsed on its own; the instant, or
   * None where strptime raises.
   */
  function ScheduledAt(date: string, time: string): (r: Option<DateTime>)
    ensures r.Some? ==> ValidDate(r.value.year, r.value.month, r.value.day) && r.value.second == 0
  {
    match StrptimeDate(date)
    case None => None
    case Some((y, m, d)) =>
      match StrptimeClock(time)
      case None => None
      case Some((hour, minute)) => Some(DateTime(y, m, d, hour, minute, 0))
  }

  /** The four ways process_time can go. */
  datatype TimeOutcome = BadTime | Unparsable | NotInFuture | TimeAccepted

  /**
   * process_time's decision with now the local datetime.now(): the format
   * check; then, when a date is stored, the combined instant must parse
   * and be strictly later than now.
   */
  function DecideTime(data: map<string, Value>, text: string, now: DateTime): (o: TimeOutcome)
    ensures o == BadTime <==> !IsValidTime(text)
    ensures o == Unparsable ==> Truthy(StoredDate(data)) && ScheduledAt(Spelled(StoredDate(data)), text).None?
    ensures o == NotInFuture ==>
      Truthy(StoredDate(data)) && ScheduledAt(Spelled(StoredDate(data)), text).Some?
      && Le(ScheduledAt(Spelled(StoredDate(data)), text).value, now)
    ensures o == TimeAccepted && Truthy(StoredDate(data)) ==>
      ScheduledAt(Spelled(StoredDate(data)), text).Some? && !Le(ScheduledAt(Spelled(StoredDate(data)), text).value, now)
  {
    if !IsValidTime(text) then BadTime
    else if !Truthy(StoredDate(data)) then TimeAccepted
    else
      match ScheduledAt(Spelled(StoredDate(data)), text)
      case None => Unparsable
      case Some(t) => if Le(t, now) then NotInFuture else TimeAccepted
  }

  function TimeReply(o: TimeOutcome): Content {
    match o
    case BadTime => InvalidTime
    case NotInFuture => TimeNotInFuture
    case _ => AskMaxPlayers
  }

  /**
   * process_time: the time is stored and the state moves to
   * SettingMaxPlayers only when accepted and the prompt delivered; a
   * combined instant strptime cannot read raises out after the user's
   * message is registered.
   */
  method ProcessTime(msg: Incoming, fsm: FsmContext, bot: Bot, cleaner: MessageCleaner, now: DateTime)
    requires fsm.state == Some(SettingTime)
    modifies fsm, bot, cleaner
    ensures var o := DecideTime(old(fsm.data), msg.text, now);
      fsm.data == (if o == TimeAccepted then old(fsm.data)["time" := Str(msg.text)] else old(fsm.data))
      && fsm.state == (if o == TimeAccepted && msg.chatId !in bot.unreachable then Some(SettingMaxPlayers) else Some(SettingTime))
      && bot.log == old(bot.log) + (if o == Unparsable then [] else [SendMessage(msg.chatId, TimeReply(o), NoKeyboard)])
      && cleaner.messageIds == (if o == Unparsable then Appended(old(cleaner.messageIds), msg.fromUser, HandleOf(msg))
                                else AfterExchange(old(cleaner.messageIds), msg, bot.unreachable, old(bot.nextMessageId)))
    ensures TextData(old(fsm.data)) ==> TextData(fsm.data)
  {
    cleaner.AddUserMessage(msg);
    var o := DecideTime(fsm.data, msg.text, now);
    if o == Unparsable {
      return;
    }
    if o != TimeAccepted {
      var _ := Answer(bot, cleaner, msg.chatId, msg.fromUser, TimeReply(o), NoKeyboard);
      return;
    }
    fsm.UpdateData("time", Str(msg.text));
    var ok := Answer(bot, cleaner, msg.chatId, msg.fromUser, AskMaxPlayers, NoKeyboard);
    if !ok {
      return;
    }
    fsm.SetState(SettingMaxPlayers);
  }

  /** A date process_date accepted, with a time is_valid_time accepts, always reads as an instant: process_time never raises on the wizard's own data. */
  lemma StoredDateParses(date: string, today: DateTime, time: string)
    requires IsValidDate(date, today) && IsValidTime(time)
    ensures ScheduledAt(date, time).Some?
    ensures var t := ScheduledAt(date, time).value;
      Valid(t) && (t.year, t.month, t.day) == StrptimeDate(date).value && (t.hour, t.minute) == StrptimeClock(time).value
  {
    ValidTimeValue(time);
  }

  /** A date spelled "YYYY-MM-DD" in digits, the only spelling SQLite's datetime() reads. */
  predicate CanonicalDate(date: string) {
    |date| == 10 && AllDigits(date[..4]) && date[4] == '-' && IsDigit(date[5]) && IsDigit(date[6])
    && date[7] == '-' && IsDigit(date[8]) && IsDigit(date[9])
  }

  /** On a canonical date strptime reads the same three fields as SQLite, and succeeds exactly on a real date. */
  lemma CanonicalDateFields(date: string)
    requires CanonicalDate(date)
    ensures var y, m, d := DigitsValue(date[..4]), TwoDigits(date[5], date[6]), TwoDigits(date[8], date[9]);
      StrptimeDate(date) == if ValidDate(y, m, d) then Some((y, m, d)) else None
  {
    var y, m, d := DigitsValue(date[..4]), TwoDigits(date[5], date[6]), TwoDigits(date[8], date[9]);
    if ValidDate(y, m, d) {
      assert date == date[..4] + "-" + [DigitChar(m / 10), DigitChar(m % 10)] + "-" + [DigitChar(d / 10), DigitChar(d % 10)];
      ReadsCanonicalDate(date[..4], y, m, d);
    }
  }

  /**
   * On the text the wizard stores with a canonical date, SQLite's
   * datetime() and the wizard's strptime read the same instant, or both
   * fail: the queries see the start process_time checked.
   */
  lemma StoredTextReadsAlike(date: string, time: string)
    requires CanonicalDate(date) && IsValidTime(time)
    ensures Queries.SqlDateTime(date, time) == ScheduledAt(date, time)
  {
    ValidTimeValue(time);
    CanonicalDateFields(date);
  }

  /** strptime also accepts "2024-1-5", which datetime() reads as NULL: such a session never has a start. */
  lemma UnpaddedDateHasNoStart(today: DateTime)
    requires today == DateTime(2024, 1, 1, 12, 0, 0)
    ensures IsValidDate("2024-1-5", today) && IsValidTime("18:00")
    ensures ScheduledAt("2024-1-5", "18:00").Some? && Queries.SqlDateTime("2024-1-5", "18:00").None?
  {
    DateExamples(today);
  }

  /** An accepted time with a stored date lies strictly after now, to the second. */
  lemma AcceptedIsLater(data: map<string, Value>, text: string, now: DateTime)
    requires Valid(now)
    requires DecideTime(data, text, now) == TimeAccepted && Truthy(StoredDate(data))
    ensures var t := ScheduledAt(Spelled(StoredDate(data)), text).value;
      Valid(t) && Seconds(now) < Seconds(t)
  {
    var t := ScheduledAt(Spelled(StoredDate(data)), text).value;
    ValidTimeValue(text);
    assert Valid(t);
    SecondsOrder(t, now);
  }

  /** The minute now falls in is not in the future: a time typed for the current minute is refused. */
  lemma CurrentMinuteRefused(data: map<string, Value>, text: string, now: DateTime)
    requires Valid(now) && IsValidTime(text) && Truthy(StoredDate(data))
    requires ScheduledAt(Spelled(StoredDate(data)), text) == Some(AtMinute(now))
    ensures DecideTime(data, text, now) == NotInFuture
  {
  }

  /** Without a stored date a well-formed time is accepted whatever the clock says. */
  lemma NoDateNoClock(data: map<string, Value>, text: string, now: DateTime, later: DateTime)
    requires !Truthy(StoredDate(data))
    ensures DecideTime(data, text, now) == DecideTime(data, text, later)
    ensures DecideTime(data, text, now) == (if IsValidTime(text) then TimeAccepted else BadTime)
  {
  }

  // -------------------------------------------------------- max players

  /** user_data['game'], ['date'] and ['time']; None where the lookup raises KeyError or the value is not text. */
  function CreationInput(data: map<string, Value>): Option<(string, string, string)> {
    if "game" in data && "date" in data && "time" in data && data["game"].Str? && data["date"].Str? && data["time"].Str?
    then Some((data["game"].s, data["date"].s, data["time"].s))
    else None
  }

  /** The session created from digits and the stored input: the next id, the creator and int(text). */
  function CreatedRow(sessions: seq<Session>, input: (string, string, string), text: string, creator: int): Session
    requires AllDigits(text)
  {
    Session(NextSessionId(sessions), input.0, input.1, input.2, DigitsValue(text), creator)
  }

  /**
   * process_max_players: the user's message is registered and the whole
   * window flushed first; a non-digit answer is refused; digits (leading
   * zeros and "0" included) with the stored input create the session,
   * clear the conversation, join the creator and report the new session
   * with the creator's main menu.
   */
  method ProcessMaxPlayers(msg: Incoming, fsm: FsmContext, db: Database, bot: Bot, cleaner: MessageCleaner)
    requires fsm.state == Some(SettingMaxPlayers)
    requires db.Valid()
    modifies fsm, db, bot, cleaner
    ensures db.Valid()
    ensures var flushed := Flushed(Appended(old(cleaner.messageIds), msg.fromUser, HandleOf(msg)), msg.fromUser);
      var deletions := Deletions(old(cleaner.Window(msg.fromUser)) + [HandleOf(msg)]);
      if !IsDigits(msg.text) then
        bot.log == old(bot.log) + deletions + [SendMessage(msg.chatId, NotANumber, NoKeyboard)]
        && cleaner.messageIds == Answered(flushed, msg.fromUser, msg.chatId, bot.unreachable, old(bot.nextMessageId))
        && fsm.state == old(fsm.state) && fsm.data == old(fsm.data) && Unchanged(db)
      else if CreationInput(old(fsm.data)).None? then
        bot.log == old(bot.log) + deletions && cleaner.messageIds == flushed
        && fsm.state == old(fsm.state) && fsm.data == old(fsm.data) && Unchanged(db)
      else
        var row := CreatedRow(old(db.sessions), CreationInput(old(fsm.data)).value, msg.text, msg.fromUser);
        bot.log == old(bot.log) + deletions + [SendMessage(msg.chatId, SessionCreated(row.id, row.game, row.date, row.time, row.maxPlayers), MainMenu(msg.fromUser))]
        && cleaner.messageIds == Answered(flushed, msg.fromUser, msg.chatId, bot.unreachable, old(bot.nextMessageId))
        && fsm.state == None && fsm.data == map[]
        && db.sessions == old(db.sessions) + [row]
        && db.participants == Join(old(db.participants), Pair(row.id, msg.fromUser))
        && db.users == old(db.users) && db.confirmations == old(db.confirmations) && db.events == old(db.events)
  {
    cleaner.AddUserMessage(msg);
    assert cleaner.Window(msg.fromUser) == old(cleaner.Window(msg.fromUser)) + [HandleOf(msg)];
    cleaner.DeletePreviousMessages(bot, msg.fromUser);
    if !IsDigits(msg.text) {
      var _ := Answer(bot, cleaner, msg.chatId, msg.fromUser, NotANumber, NoKeyboard);
      return;
    }
    var input := CreationInput(fsm.data);
    if input.None? {
      return;
    }
    CreateAndJoin(msg, input.value, fsm, db, bot, cleaner);
  }

  /** No table of the store changed. */
  twostate predicate Unchanged(db: Database)
    reads db
  {
    db.users == old(db.users) && db.sessions == old(db.sessions) && db.participants == old(db.participants)
    && db.confirmations == old(db.confirmations) && db.events == old(db.events)
  }

  /** create_session, state.clear(), join_session, then the report. */
  method CreateAndJoin(msg: Incoming, input: (string, string, string), fsm: FsmContext, db: Database, bot: Bot, cleaner: MessageCleaner)
    requires IsDigits(msg.text)
    requires db.Valid()
    modifies fsm, db, bot, cleaner
    ensures db.Valid()
    ensures var row := CreatedRow(old(db.sessions), input, msg.text, msg.fromUser);
      bot.log == old(bot.log) + [SendMessage(msg.chatId, SessionCreated(row.id, row.game, row.date, row.time, row.maxPlayers), MainMenu(msg.fromUser))]
      && cleaner.messageIds == Answered(old(cleaner.messageIds), msg.fromUser, msg.chatId, bot.unreachable, old(bot.nextMessageId))
      && fsm.state == None && fsm.data == map[]
      && db.sessions == old(db.sessions) + [row]
      && db.participants == Join(old(db.participants), Pair(row.id, msg.fromUser))
      && db.users == old(db.users) && db.confirmations == old(db.confirmations) && db.events == old(db.events)
  {
    var maxPlayers := DigitsValue(msg.text);
    var sessionId := db.CreateSession(input.0, input.1, input.2, maxPlayers, msg.fromUser);
    fsm.Clear();
    db.JoinSession(sessionId, msg.fromUser);
    var _ := Answer(bot, cleaner, msg.chatId, msg.fromUser, SessionCreated(sessionId, input.0, input.1, input.2, maxPlayers), MainMenu(msg.fromUser));
  }

  /**
   * After a creation the creator takes part in the new session, which is
   * found by its id with the stored game, date, time and limit; the
   * session was not there before.
   */
  lemma CreatorTakesPart(sessions: seq<Session>, ps: seq<Pair>, input: (string, string, string), text: string, creator: int)
    requires SessionsOrdered(sessions) && AllDigits(text)
    ensures var row := CreatedRow(sessions, input, text, creator);
      Pair(row.id, creator) in Join(ps, Pair(row.id, creator))
      && FindSession(sessions + [row], row.id) == Some(row)
      && FindSession(sessions, row.id).None?
  {
    var row := CreatedRow(sessions, input, text, creator);
    var after := sessions + [row];
    assert SessionsOrdered(after);
    assert row in after;
  }

  /** "0" and "007" are digits: the wizard creates sessions with limit 0 and 7; "-1" and "" are refused. */
  lemma PlayerLimitExamples()
    ensures IsDigits("0") && DigitsValue("0") == 0
    ensures IsDigits("007") && DigitsValue("007") == 7
    ensures !IsDigits("-1") && !IsDigits("")
  {
    assert "007"[..2] == "00" && "00"[..1] == "0" && "0"[..0] == "";
    assert DigitsValue("0") == 0;
    assert DigitsValue("00") == 0;
    assert "007"[2] == '7';
    assert DigitsValue("007") == 7;
    assert "-1"[0] == '-';
  }
}
