/**
 * The button handlers of the session flow: choosing a game, listing the
 * sessions, showing one session, joining and leaving it, and answering a
 * reminder with confirm or decline.
 */
module SessionCallbacks {
  import opened Wrappers
  import opened Text
  import opened Calendar
  import opened Tables
  import opened Queries
  import opened Transport
  import opened Cleaner
  import opened Fsm
  import opened Store
  import opened CallbackData
  import opened Seqs

  // ----------------------------------------------------- game selection

  /**
   * process_game_selection: "game_other" asks for a name and enters
   * ChoosingGame; any other game_X stores X and enters SettingDate. The
   * state is set only once the prompt is delivered.
   */
  method ProcessGameSelection(cb: Callback, fsm: FsmContext, bot: Bot, cleaner: MessageCleaner)
    requires StartsWith(cb.data, "game_")
    modifies fsm, bot, cleaner
    ensures var game := GameName(cb.data);
      bot.log == old(bot.log) + [SendMessage(cb.message.chatId, if game == "other" then AskGameName else AskDate, NoKeyboard)]
      && cleaner.messageIds == Answered(old(cleaner.messageIds), cb.fromUser, cb.message.chatId, bot.unreachable, old(bot.nextMessageId))
      && fsm.data == (if game == "other" then old(fsm.data) else old(fsm.data)["game" := Str(game)])
      && fsm.state == (if cb.message.chatId in bot.unreachable then old(fsm.state)
                       else if game == "other" then Some(ChoosingGame) else Some(SettingDate))
  {
    var game := GameName(cb.data);
    if game == "other" {
      var ok := Answer(bot, cleaner, cb.message.chatId, cb.fromUser, AskGameName, NoKeyboard);
      if !ok {
        return;
      }
      fsm.SetState(ChoosingGame);
    } else {
      fsm.UpdateData("game", Str(game));
      var ok := Answer(bot, cleaner, cb.message.chatId, cb.fromUser, AskDate, NoKeyboard);
      if !ok {
        return;
      }
      fsm.SetState(SettingDate);
    }
  }

  // ------------------------------------------------------ session list

  const ListHeader: string := "Доступные сессии:\n\n"

  /** The block format_sessions_list writes for one session, piece by piece. */
  function SessionBlock(s: ListedSession): string {
    Concat(["ID: ", IntToString(s.id), ", Игра: ", s.game, "\n",
            "Дата: ", s.date, ", Время: ", s.time, "\n",
            "Игроки: ", IntToString(s.currentPlayers), "/", IntToString(s.maxPlayers), "\n",
            "Создатель: ", s.creatorName, "\n",
            "-------------------\n"])
  }

  /** The block texts of the rows, in row order. */
  function BlockTexts(rows: seq<ListedSession>): (r: seq<string>)
    ensures |r| == |rows|
  {
    if |rows| == 0 then [] else BlockTexts(rows[..|rows| - 1]) + [SessionBlock(rows[|rows| - 1])]
  }

  /** format_sessions_list: the header, then text += block for each row. */
  method FormatSessionsList(rows: seq<ListedSession>) returns (text: string)
    ensures text == ListHeader + Concat(BlockTexts(rows))
  {
    text := ListHeader;
    var i := 0;
    while i < |rows|
      invariant 0 <= i <= |rows|
      invariant text == ListHeader + Concat(BlockTexts(rows[..i]))
    {
      FormatStep(rows, i);
      text := text + SessionBlock(rows[i]);
      i := i + 1;
    }
    assert rows[..i] == rows;
  }

  /** One more row appends its block to the text. */
  lemma FormatStep(rows: seq<ListedSession>, i: int)
    requires 0 <= i < |rows|
    ensures ListHeader + Concat(BlockTexts(rows[..i + 1])) == (ListHeader + Concat(BlockTexts(rows[..i]))) + SessionBlock(rows[i])
  {
    var block := SessionBlock(rows[i]);
    BlockTextsStep(rows, i);
    ConcatStep(BlockTexts(rows[..i]), block);
    AppendAssociates(ListHeader, Concat(BlockTexts(rows[..i])), block);
  }

  lemma BlockTextsStep(rows: seq<ListedSession>, i: int)
    requires 0 <= i < |rows|
    ensures BlockTexts(rows[..i + 1]) == BlockTexts(rows[..i]) + [SessionBlock(rows[i])]
  {
    assert rows[..i + 1][..i] == rows[..i];
  }

  /** The session_info_{id} buttons of get_sessions_list_keyboard, one per row. */
  function InfoData(rows: seq<ListedSession>): (r: seq<string>)
    ensures |r| == |rows|
    ensures forall i :: 0 <= i < |rows| ==> r[i] == Encode("session_info", rows[i].id)
  {
    seq(|rows|, i requires 0 <= i < |rows| => Encode("session_info", rows[i].id))
  }

  function SessionsListKeyboard(rows: seq<ListedSession>): Keyboard {
    Buttons(InfoData(rows) + ["back_to_menu"])
  }

  /** Each button of the list reads back, through split("_")[-1], as the id of its row. */
  lemma ListButtonsReadBack(rows: seq<ListedSession>)
    ensures forall i :: 0 <= i < |rows| ==> LastField(SessionsListKeyboard(rows).data[i]) == Some(rows[i].id)
  {
    forall i | 0 <= i < |rows| ensures LastField(SessionsListKeyboard(rows).data[i]) == Some(rows[i].id) {
      LastFieldRoundTrip("session_info", rows[i].id);
    }
  }

  /**
   * show_sessions edits the pressed message. An empty listing gets the
   * back-to-menu keyboard of callback.message.from_user, which is the bot
   * itself.
   */
  method ShowSessions(cb: Callback, db: Database, bot: Bot, utcNow: DateTime, localNow: DateTime)
    requires cb.data == "list_sessions"
    requires Valid(utcNow) && Valid(localNow)
    modifies bot
    ensures var rows := GetSessions(db.sessions, db.users, db.participants, utcNow, localNow);
      bot.log == old(bot.log) + [if |rows| == 0 then EditMessage(cb.message, NoSessions, BackToMenu(bot.id))
                                  else EditMessage(cb.message, SessionsList(ListHeader + Concat(BlockTexts(rows))), SessionsListKeyboard(rows))]
    ensures bot.nextMessageId == old(bot.nextMessageId)
  {
    var rows := GetSessions(db.sessions, db.users, db.participants, utcNow, localNow);
    if |rows| == 0 {
      var _ := bot.Edit(cb.message, NoSessions, BackToMenu(bot.id));
      return;
    }
    var text := FormatSessionsList(rows);
    var _ := bot.Edit(cb.message, SessionsList(text), SessionsListKeyboard(rows));
  }

  // ------------------------------------------------------- session info

  /** next((s for s in rows if s[0] == id), None) */
  function FirstWithId(rows: seq<ListedSession>, id: int): (r: Option<ListedSession>)
    ensures r.Some? ==> r.value in rows && r.value.id == id
    ensures r.None? <==> forall x :: x in rows ==> x.id != id
  {
    if |rows| == 0 then None
    else if rows[0].id == id then Some(rows[0])
    else FirstWithId(rows[1..], id)
  }

  /** The first button offers to leave when the caller is a participant and to join otherwise; the second goes back to the list. */
  function InfoButtons(sessionId: int, participants: seq<Participant>, user: int): seq<string> {
    [if HasParticipant(participants, user) then Encode("leave", sessionId) else Encode("join", sessionId), "list_sessions"]
  }

  function Names(participants: seq<Participant>): (r: seq<(string, Option<string>)>)
    ensures |r| == |participants|
    ensures forall i :: 0 <= i < |r| ==> r[i] == (participants[i].name, participants[i].username)
  {
    seq(|participants|, i requires 0 <= i < |participants| => (participants[i].name, participants[i].username))
  }

  function Details(row: ListedSession, participants: seq<Participant>): Content {
    SessionDetails(row.id, row.game, row.date, row.time, row.maxPlayers, row.currentPlayers, row.creatorName, Names(participants))
  }

  /**
   * What show_session_info sends: nothing when the id does not parse or
   * the listing has no row with it (the "not found" reply calls a method
   * CallbackQuery does not have), otherwise an edit with the details.
   */
  function InfoReply(rows: seq<ListedSession>, ps: seq<Pair>, users: seq<User>, cb: Callback): Option<Request> {
    match LastField(cb.data)
    case None => None
    case Some(id) =>
      match FirstWithId(rows, id)
      case None => None
      case Some(row) =>
        var participants := GetSessionParticipants(ps, users, row.id);
        Some(EditMessage(cb.message, Details(row, participants), Buttons(InfoButtons(row.id, participants, cb.fromUser))))
  }

  method ShowSessionInfo(cb: Callback, db: Database, bot: Bot, utcNow: DateTime, localNow: DateTime)
    requires StartsWith(cb.data, "session_info_")
    requires Valid(utcNow) && Valid(localNow)
    modifies bot
    ensures var reply := InfoReply(GetSessions(db.sessions, db.users, db.participants, utcNow, localNow), db.participants, db.users, cb);
      bot.log == old(bot.log) + (if reply.Some? then [reply.value] else [])
    ensures bot.nextMessageId == old(bot.nextMessageId)
  {
    var parsed := LastField(cb.data);
    if parsed.None? {
      return;
    }
    var rows := GetSessions(db.sessions, db.users, db.participants, utcNow, localNow);
    var found := FirstWithId(rows, parsed.value);
    if found.None? {
      return;
    }
    var row := found.value;
    var participants := GetSessionParticipants(db.participants, db.users, row.id);
    var _ := bot.Edit(cb.message, Details(row, participants), Buttons(InfoButtons(row.id, participants, cb.fromUser)));
  }

  /**
   * The details are shown exactly for an id of a session get_sessions
   * lists; a session the listing filters out reads as not found.
   */
  lemma InfoOnlyForListed(sessions: seq<Session>, users: seq<User>, ps: seq<Pair>, utcNow: DateTime, localNow: DateTime, cb: Callback)
    requires Valid(utcNow) && Valid(localNow)
    ensures InfoReply(GetSessions(sessions, users, ps, utcNow, localNow), ps, users, cb).Some? <==>
      LastField(cb.data).Some? &&
      exists s :: s in sessions && s.id == LastField(cb.data).value && Listed(s, users, DateText(utcNow), ClockText(localNow))
  {
    var rows := GetSessions(sessions, users, ps, utcNow, localNow);
    GetSessionsMeaning(sessions, users, ps, utcNow, localNow);
    InfoReplyFound(rows, ps, users, cb);
    if LastField(cb.data).Some? {
      FoundIffListed(rows, sessions, users, ps, DateText(utcNow), ClockText(localNow), LastField(cb.data).value);
    }
  }

  lemma InfoReplyFound(rows: seq<ListedSession>, ps: seq<Pair>, users: seq<User>, cb: Callback)
    ensures InfoReply(rows, ps, users, cb).Some? <==> LastField(cb.data).Some? && FirstWithId(rows, LastField(cb.data).value).Some?
  {
  }

  /** Over rows that are exactly the listings of the listed sessions, an id is found exactly when a listed session has it. */
  lemma FoundIffListed(rows: seq<ListedSession>, sessions: seq<Session>, users: seq<User>, ps: seq<Pair>,
                       today: string, clock: string, id: int)
    requires forall x :: x in rows ==> exists s :: s in sessions && Listed(s, users, today, clock) && x == Listing(s, users, ps)
    requires forall s :: s in sessions && Listed(s, users, today, clock) ==> Listing(s, users, ps) in rows
    ensures FirstWithId(rows, id).Some? <==> exists s :: s in sessions && s.id == id && Listed(s, users, today, clock)
  {
    if FirstWithId(rows, id).Some? {
      var row := FirstWithId(rows, id).value;
      var s :| s in sessions && Listed(s, users, today, clock) && row == Listing(s, users, ps);
      assert s.id == id;
    }
    if exists s :: s in sessions && s.id == id && Listed(s, users, today, clock) {
      var s :| s in sessions && s.id == id && Listed(s, users, today, clock);
      assert Listing(s, users, ps) in rows;
    }
  }

  /**
   * For a registered caller the first button leaves the session exactly
   * when they are in it and joins it exactly when they are not, and its
   * id reads back as the session shown.
   */
  lemma InfoButtonToggles(sessions: seq<Session>, users: seq<User>, ps: seq<Pair>, utcNow: DateTime, localNow: DateTime, cb: Callback)
    requires Valid(utcNow) && Valid(localNow)
    requires FindUser(users, cb.fromUser).Some?
    ensures var reply := InfoReply(GetSessions(sessions, users, ps, utcNow, localNow), ps, users, cb);
      reply.Some? ==>
        var id := LastField(cb.data).value;
        var first := reply.value.keyboard.data[0];
        SecondField(first) == Some(id)
        && (StartsWith(first, "leave_") <==> Pair(id, cb.fromUser) in ps)
        && (StartsWith(first, "join_") <==> Pair(id, cb.fromUser) !in ps)
  {
    var reply := InfoReply(GetSessions(sessions, users, ps, utcNow, localNow), ps, users, cb);
    if reply.Some? {
      FirstButtonToggles(LastField(cb.data).value, ps, users, cb.fromUser);
    }
  }

  lemma FirstButtonToggles(sessionId: int, ps: seq<Pair>, users: seq<User>, user: int)
    requires FindUser(users, user).Some?
    ensures var first := InfoButtons(sessionId, GetSessionParticipants(ps, users, sessionId), user)[0];
      SecondField(first) == Some(sessionId)
      && (StartsWith(first, "leave_") <==> Pair(sessionId, user) in ps)
      && (StartsWith(first, "join_") <==> Pair(sessionId, user) !in ps)
  {
    ParticipantListed(ps, users, sessionId, user);
    SecondFieldRoundTrip("leave", sessionId);
    SecondFieldRoundTrip("join", sessionId);
    ButtonPrefixes(sessionId);
  }

  lemma ButtonPrefixes(id: int)
    ensures StartsWith(Encode("leave", id), "leave_") && !StartsWith(Encode("leave", id), "join_")
    ensures StartsWith(Encode("join", id), "join_") && !StartsWith(Encode("join", id), "leave_")
  {
    assert Encode("leave", id)[..6] == "leave_";
    assert Encode("join", id)[..5] == "join_";
    assert Encode("join", id)[0] != 'l';
    assert Encode("leave", id)[0] != 'j';
  }

  // ----------------------------------------------------- join and leave

  /**
   * join_game_session: the store change, then a reply through a method
   * CallbackQuery does not have, which ends the handler before any call
   * to the bot.
   */
  method JoinGameSession(cb: Callback, db: Database)
    requires StartsWith(cb.data, "join_")
    requires db.Valid()
    modifies db
    ensures db.Valid()
    ensures db.participants == (if SecondField(cb.data).Some?
                                then Join(old(db.participants), Pair(SecondField(cb.data).value, cb.fromUser))
                                else old(db.participants))
    ensures db.users == old(db.users) && db.sessions == old(db.sessions)
    ensures db.confirmations == old(db.confirmations) && db.events == old(db.events)
  {
    var parsed := SecondField(cb.data);
    if parsed.None? {
      return;
    }
    db.JoinSession(parsed.value, cb.fromUser);
  }

  /** leave_game_session: as join_game_session, with the pair deleted. */
  method LeaveGameSession(cb: Callback, db: Database)
    requires StartsWith(cb.data, "leave_")
    requires db.Valid()
    modifies db
    ensures db.Valid()
    ensures db.participants == (if SecondField(cb.data).Some?
                                then Leave(old(db.participants), Pair(SecondField(cb.data).value, cb.fromUser))
                                else old(db.participants))
    ensures db.users == old(db.users) && db.sessions == old(db.sessions)
    ensures db.confirmations == old(db.confirmations) && db.events == old(db.events)
  {
    var parsed := SecondField(cb.data);
    if parsed.None? {
      return;
    }
    db.LeaveSession(parsed.value, cb.fromUser);
  }

  // ------------------------------------------------- confirm and decline

  /** The ids of the participants other than user, in participant order. */
  function Others(participants: seq<Participant>, user: int): (r: seq<int>)
    ensures forall i :: 0 <= i < |r| ==> r[i] != user
  {
    if |participants| == 0 then []
    else
      var last := participants[|participants| - 1];
      Others(participants[..|participants| - 1], user) + (if last.id != user then [last.id] else [])
  }

  lemma OthersStep(participants: seq<Participant>, p: Participant, user: int)
    ensures Others(participants + [p], user) == Others(participants, user) + (if p.id != user then [p.id] else [])
  {
    assert (participants + [p])[..|participants|] == participants;
  }

  lemma {:induction false} OthersAppend(a: seq<Participant>, b: seq<Participant>, user: int)
    ensures Others(a + b, user) == Others(a, user) + Others(b, user)
    decreases |b|
  {
    if |b| == 0 {
      assert a + b == a;
    } else {
      var last := b[|b| - 1];
      assert a + b == (a + b[..|b| - 1]) + [last];
      assert b == b[..|b| - 1] + [last];
      OthersStep(a + b[..|b| - 1], last, user);
      OthersStep(b[..|b| - 1], last, user);
      OthersAppend(a, b[..|b| - 1], user);
    }
  }

  /** The recipients are exactly the participants other than user. */
  lemma {:induction false} OthersMembers(participants: seq<Participant>, user: int, x: int)
    ensures x in Others(participants, user) <==> x != user && exists p :: p in participants && p.id == x
    decreases |participants|
  {
    if |participants| > 0 {
      var prefix := participants[..|participants| - 1];
      var last := participants[|participants| - 1];
      assert participants == prefix + [last];
      OthersMembers(prefix, user, x);
      if x != user && (exists p :: p in participants && p.id == x) && last.id != x {
        var p :| p in participants && p.id == x;
        assert p in prefix;
      }
    }
  }

  /** Participants with distinct ids give distinct recipients: no one is notified twice. */
  lemma {:induction false} OthersDistinct(participants: seq<Participant>, user: int)
    requires DistinctIds(participants)
    ensures NoDuplicates(Others(participants, user))
    decreases |participants|
  {
    if |participants| > 0 {
      var prefix := participants[..|participants| - 1];
      var last := participants[|participants| - 1];
      OthersDistinct(prefix, user);
      if last.id != user {
        var before := Others(prefix, user);
        forall x | x in before ensures x != last.id {
          OthersMembers(prefix, user, x);
          var p :| p in prefix && p.id == x;
          var k :| 0 <= k < |prefix| && prefix[k] == p;
          assert participants[k] == p;
        }
        var r := before + [last.id];
        forall i, j | 0 <= i < j < |r| ensures r[i] != r[j] {
          if j == |r| - 1 {
            assert r[i] in before;
          }
        }
      }
    }
  }

  /** A notification to one participant; confirm_session attaches that participant's main menu. */
  function Notice(chatId: int, content: Content, withMenu: bool): Request {
    SendMessage(chatId, content, if withMenu then MainMenu(chatId) else NoKeyboard)
  }

  function Notices(recipients: seq<int>, content: Content, withMenu: bool): (r: seq<Request>)
    ensures |r| == |recipients|
  {
    if |recipients| == 0 then []
    else Notices(recipients[..|recipients| - 1], content, withMenu) + [Notice(recipients[|recipients| - 1], content, withMenu)]
  }

  predicate AllReachable(recipients: seq<int>, unreachable: set<int>) {
    forall j :: 0 <= j < |recipients| ==> recipients[j] !in unreachable
  }

  /** The position of the first recipient a send to fails, or the number of recipients. */
  function FirstUnreachable(recipients: seq<int>, unreachable: set<int>): (k: nat)
    ensures k <= |recipients|
    ensures k < |recipients| ==> recipients[k] in unreachable
    ensures AllReachable(recipients[..k], unreachable)
  {
    if |recipients| == 0 then 0
    else if recipients[0] in unreachable then 0
    else
      var k := 1 + FirstUnreachable(recipients[1..], unreachable);
      assert forall j :: 1 <= j < k ==> recipients[..k][j] == recipients[1..][..k - 1][j - 1];
      k
  }

  /** The sends the loop makes: the first failing one raises out of the handler. */
  function Attempted(recipients: seq<int>, unreachable: set<int>): seq<int> {
    var k := FirstUnreachable(recipients, unreachable);
    if k < |recipients| then recipients[..k + 1] else recipients
  }

  /** The sending loop of confirm_session and decline_session. */
  method NotifyOthers(bot: Bot, participants: seq<Participant>, user: int, content: Content, withMenu: bool)
    modifies bot
    ensures bot.log == old(bot.log) + Notices(Attempted(Others(participants, user), bot.unreachable), content, withMenu)
    ensures bot.nextMessageId == old(bot.nextMessageId) + FirstUnreachable(Others(participants, user), bot.unreachable)
  {
    ghost var log0 := bot.log;
    ghost var next0 := bot.nextMessageId;
    var i := 0;
    while i < |participants|
      invariant 0 <= i <= |participants|
      invariant bot.log == log0 + Notices(Others(participants[..i], user), content, withMenu)
      invariant bot.nextMessageId == next0 + |Others(participants[..i], user)|
      invariant AllReachable(Others(participants[..i], user), bot.unreachable)
    {
      var ok := NotifyOne(bot, participants, i, user, content, withMenu, log0, next0);
      if !ok {
        return;
      }
      i := i + 1;
    }
    assert participants[..i] == participants;
    AllDelivered(Others(participants, user), bot.unreachable);
  }

  /** One turn of the loop: a send to participants[i] unless it is the user; a failing send ends the loop. */
  method NotifyOne(bot: Bot, participants: seq<Participant>, i: int, user: int, content: Content, withMenu: bool,
                   ghost log0: seq<Request>, ghost next0: int) returns (ok: bool)
    requires 0 <= i < |participants|
    requires bot.log == log0 + Notices(Others(participants[..i], user), content, withMenu)
    requires bot.nextMessageId == next0 + |Others(participants[..i], user)|
    requires AllReachable(Others(participants[..i], user), bot.unreachable)
    modifies bot
    ensures ok ==>
      bot.log == log0 + Notices(Others(participants[..i + 1], user), content, withMenu)
      && bot.nextMessageId == next0 + |Others(participants[..i + 1], user)|
      && AllReachable(Others(participants[..i + 1], user), bot.unreachable)
    ensures !ok ==>
      bot.log == log0 + Notices(Attempted(Others(participants, user), bot.unreachable), content, withMenu)
      && bot.nextMessageId == next0 + FirstUnreachable(Others(participants, user), bot.unreachable)
  {
    var p := participants[i];
    NotifyStep(participants, i, user, content, withMenu, bot.unreachable);
    ok := true;
    if p.id != user {
      var response := bot.Send(p.id, content, if withMenu then MainMenu(p.id) else NoKeyboard);
      if response.None? {
        StopsAtFailure(participants, i, user, bot.unreachable);
        ok := false;
      }
    }
  }

  /** What one turn of the loop adds. */
  lemma NotifyStep(participants: seq<Participant>, i: int, user: int, content: Content, withMenu: bool, unreachable: set<int>)
    requires 0 <= i < |participants|
    ensures var p := participants[i];
      var before := Others(participants[..i], user);
      var after := Others(participants[..i + 1], user);
      (p.id == user ==> after == before)
      && (p.id != user ==>
            after == before + [p.id]
            && Notices(after, content, withMenu) == Notices(before, content, withMenu) + [Notice(p.id, content, withMenu)]
            && (AllReachable(before, unreachable) && p.id !in unreachable ==> AllReachable(after, unreachable)))
  {
    var p := participants[i];
    assert participants[..i + 1] == participants[..i] + [p];
    OthersStep(participants[..i], p, user);
    NoticesStep(Others(participants[..i], user), p.id, content, withMenu);
  }

  lemma NoticesStep(recipients: seq<int>, x: int, content: Content, withMenu: bool)
    ensures Notices(recipients + [x], content, withMenu) == Notices(recipients, content, withMenu) + [Notice(x, content, withMenu)]
  {
    assert (recipients + [x])[..|recipients|] == recipients;
  }

  lemma AllDelivered(recipients: seq<int>, unreachable: set<int>)
    requires AllReachable(recipients, unreachable)
    ensures FirstUnreachable(recipients, unreachable) == |recipients|
    ensures Attempted(recipients, unreachable) == recipients
  {
  }

  lemma StopsAtFailure(participants: seq<Participant>, i: int, user: int, unreachable: set<int>)
    requires 0 <= i < |participants|
    requires participants[i].id != user && participants[i].id in unreachable
    requires AllReachable(Others(participants[..i], user), unreachable)
    ensures Attempted(Others(participants, user), unreachable) == Others(participants[..i + 1], user)
    ensures FirstUnreachable(Others(participants, user), unreachable) == |Others(participants[..i], user)|
  {
    var before := Others(participants[..i], user);
    var head := Others(participants[..i + 1], user);
    assert participants[..i + 1] == participants[..i] + [participants[i]];
    OthersStep(participants[..i], participants[i], user);
    assert head == before + [participants[i].id];
    assert participants == participants[..i + 1] + participants[i + 1..];
    OthersAppend(participants[..i + 1], participants[i + 1..], user);
    var all := Others(participants, user);
    assert all == head + Others(participants[i + 1..], user);
    FirstFailureAt(all, |before|, unreachable);
    assert all[..|before| + 1] == head;
  }

  lemma FirstFailureAt(recipients: seq<int>, k: nat, unreachable: set<int>)
    requires k < |recipients| && recipients[k] in unreachable
    requires AllReachable(recipients[..k], unreachable)
    ensures FirstUnreachable(recipients, unreachable) == k
  {
  }

  /** The notification text's data: who answered, and the game, date and time of the session. */
  function NoticeContent(cb: Callback, info: SessionInfo, confirmed: bool): Content {
    if confirmed then ParticipantConfirmed(cb.fullName, cb.username, info.game, info.date, info.time)
    else ParticipantDeclined(cb.fullName, cb.username, info.game, info.date, info.time)
  }

  /**
   * The notifications after the edit: none when the session has no info
   * (None['game'] raises), otherwise one per other registered participant
   * up to the first that fails. Only confirmations attach a menu.
   */
  function Notifications(sessionId: int, cb: Callback, sessions: seq<Session>, users: seq<User>, ps: seq<Pair>,
                         confirmed: bool, unreachable: set<int>): seq<Request> {
    match GetSessionInfo(sessions, users, sessionId)
    case None => []
    case Some(info) =>
      Notices(Attempted(Others(GetSessionParticipants(ps, users, sessionId), cb.fromUser), unreachable),
              NoticeContent(cb, info, confirmed), confirmed)
  }

  /** How many of those notifications are delivered. */
  function NotifiedCount(sessionId: int, cb: Callback, sessions: seq<Session>, users: seq<User>, ps: seq<Pair>,
                         unreachable: set<int>): nat {
    match GetSessionInfo(sessions, users, sessionId)
    case None => 0
    case Some(_) => FirstUnreachable(Others(GetSessionParticipants(ps, users, sessionId), cb.fromUser), unreachable)
  }

  /** The common tail of confirm_session and decline_session. */
  method NotifyAbout(sessionId: int, cb: Callback, db: Database, bot: Bot, confirmed: bool)
    modifies bot
    ensures bot.log == old(bot.log) + Notifications(sessionId, cb, db.sessions, db.users, db.participants, confirmed, bot.unreachable)
    ensures bot.nextMessageId == old(bot.nextMessageId) + NotifiedCount(sessionId, cb, db.sessions, db.users, db.participants, bot.unreachable)
  {
    var info := GetSessionInfo(db.sessions, db.users, sessionId);
    var participants := GetSessionParticipants(db.participants, db.users, sessionId);
    if info.None? {
      return;
    }
    NotifyOthers(bot, participants, cb.fromUser, NoticeContent(cb, info.value, confirmed), confirmed);
  }

  /** The edit of the pressed message: confirm_session attaches the menu of the bot, decline_session none. */
  function Acknowledgement(cb: Callback, confirmed: bool, botId: int): Request {
    if confirmed then EditMessage(cb.message, ConfirmedAck, MainMenu(botId))
    else EditMessage(cb.message, DeclinedAck, NoKeyboard)
  }

  /** The reply to the pressed button: the edit, and the notifications if it went through. */
  function AnswerRequests(sessionId: int, cb: Callback, sessions: seq<Session>, users: seq<User>, ps: seq<Pair>,
                          confirmed: bool, botId: int, unreachable: set<int>): seq<Request> {
    [Acknowledgement(cb, confirmed, botId)] + (if cb.message.chatId in unreachable then [] else Notifications(sessionId, cb, sessions, users, ps, confirmed, unreachable))
  }

  /**
   * confirm_session: the status becomes "confirmed", the pressed message
   * is edited (with the main menu of callback.message.from_user, the bot),
   * then every other registered participant is notified. A failing edit,
   * a session without info or a failing send ends the handler.
   */
  method ConfirmSession(cb: Callback, db: Database, bot: Bot)
    requires StartsWith(cb.data, "confirm_")
    requires db.Valid()
    modifies db, bot
    ensures db.Valid()
    ensures db.confirmations == (if SecondField(cb.data).Some?
                                 then Confirm(old(db.confirmations), Pair(SecondField(cb.data).value, cb.fromUser), "confirmed")
                                 else old(db.confirmations))
    ensures db.users == old(db.users) && db.sessions == old(db.sessions)
    ensures db.participants == old(db.participants) && db.events == old(db.events)
    ensures bot.log == old(bot.log) + (if SecondField(cb.data).None? then []
                                       else AnswerRequests(SecondField(cb.data).value, cb, db.sessions, db.users, db.participants, true, bot.id, bot.unreachable))
  {
    var parsed := SecondField(cb.data);
    if parsed.None? {
      return;
    }
    var sessionId := parsed.value;
    db.UpdateSessionConfirmation(sessionId, cb.fromUser, "confirmed");
    AckAndNotify(sessionId, cb, db, bot, true);
  }

  /** After the store writes: the edit, then the notifications. */
  method AckAndNotify(sessionId: int, cb: Callback, db: Database, bot: Bot, confirmed: bool)
    modifies bot
    ensures bot.log == old(bot.log) + AnswerRequests(sessionId, cb, db.sessions, db.users, db.participants, confirmed, bot.id, bot.unreachable)
  {
    var ack := Acknowledgement(cb, confirmed, bot.id);
    var edited := bot.Edit(cb.message, ack.content, ack.keyboard);
    if edited.None? {
      return;
    }
    ghost var log1 := bot.log;
    ghost var notes := Notifications(sessionId, cb, db.sessions, db.users, db.participants, confirmed, bot.unreachable);
    assert AnswerRequests(sessionId, cb, db.sessions, db.users, db.participants, confirmed, bot.id, bot.unreachable) == [ack] + notes;
    NotifyAbout(sessionId, cb, db, bot, confirmed);
    assert bot.log == log1 + notes;
  }

  /**
   * decline_session: the status becomes "declined" and the pair is
   * deleted, then the edit and the notifications as in confirm_session,
   * computed on the participants that remain.
   */
  method DeclineSession(cb: Callback, db: Database, bot: Bot)
    requires StartsWith(cb.data, "decline_")
    requires db.Valid()
    modifies db, bot
    ensures db.Valid()
    ensures db.confirmations == (if SecondField(cb.data).Some?
                                 then Confirm(old(db.confirmations), Pair(SecondField(cb.data).value, cb.fromUser), "declined")
                                 else old(db.confirmations))
    ensures db.participants == (if SecondField(cb.data).Some?
                                then Leave(old(db.participants), Pair(SecondField(cb.data).value, cb.fromUser))
                                else old(db.participants))
    ensures db.users == old(db.users) && db.sessions == old(db.sessions) && db.events == old(db.events)
    ensures bot.log == old(bot.log) + (if SecondField(cb.data).None? then []
                                       else AnswerRequests(SecondField(cb.data).value, cb, db.sessions, db.users, db.participants, false, bot.id, bot.unreachable))
  {
    var parsed := SecondField(cb.data);
    if parsed.None? {
      return;
    }
    var sessionId := parsed.value;
    db.UpdateSessionConfirmation(sessionId, cb.fromUser, "declined");
    db.RemoveParticipant(sessionId, cb.fromUser);
    AckAndNotify(sessionId, cb, db, bot, false);
  }

  /** The recipients of a confirmation: the registered participants of the session other than the confirmer. */
  lemma ConfirmRecipients(ps: seq<Pair>, users: seq<User>, sessionId: int, user: int, x: int)
    ensures x in Others(GetSessionParticipants(ps, users, sessionId), user) <==>
      Pair(sessionId, x) in ps && FindUser(users, x).Some? && x != user
    ensures NoDuplicates(ps) ==> NoDuplicates(Others(GetSessionParticipants(ps, users, sessionId), user))
  {
    var r := GetSessionParticipants(ps, users, sessionId);
    OthersMembers(r, user, x);
    if NoDuplicates(ps) {
      ParticipantsDistinct(ps, users, sessionId);
      OthersDistinct(r, user);
    }
    if Pair(sessionId, x) in ps && FindUser(users, x).Some? && x != user {
      assert ParticipantOf(FindUser(users, x).value) in r;
    }
  }

  /**
   * The recipients of a decline: the registered participants that remain
   * once the decliner is removed, which are those of the session before
   * other than the decliner.
   */
  lemma DeclineRecipients(ps: seq<Pair>, users: seq<User>, sessionId: int, user: int, x: int)
    ensures x in Others(GetSessionParticipants(Leave(ps, Pair(sessionId, user)), users, sessionId), user) <==>
      Pair(sessionId, x) in ps && FindUser(users, x).Some? && x != user
    ensures NoDuplicates(ps) ==> NoDuplicates(Others(GetSessionParticipants(Leave(ps, Pair(sessionId, user)), users, sessionId), user))
  {
    ConfirmRecipients(Leave(ps, Pair(sessionId, user)), users, sessionId, user, x);
  }

  /**
   * The loop attempts a prefix of the recipients: every one of them is
   * reachable but possibly the last, it stops early only at an unreachable
   * one, and it reaches everybody when nobody is unreachable.
   */
  lemma AttemptedPrefix(recipients: seq<int>, unreachable: set<int>)
    ensures var a := Attempted(recipients, unreachable);
      |a| <= |recipients| && a == recipients[..|a|]
      && (forall j :: 0 <= j < |a| - 1 ==> a[j] !in unreachable)
      && (|a| < |recipients| ==> a[|a| - 1] in unreachable)
      && (AllReachable(recipients, unreachable) <==> a == recipients && FirstUnreachable(recipients, unreachable) == |recipients|)
  {
    var k := FirstUnreachable(recipients, unreachable);
    var a := Attempted(recipients, unreachable);
    assert forall j :: 0 <= j < k ==> recipients[..k][j] == recipients[j];
  }

  /** Once answered, the pair is no longer reminded, whatever the session and the time. */
  lemma AnsweredNotReminded(c: map<Pair, string>, p: Pair, s: Session, now: DateTime, hours: int)
    requires Valid(now)
    ensures !Remindable(s, p, Confirm(c, p, "confirmed"), now, hours)
    ensures !Remindable(s, p, Confirm(c, p, "declined"), now, hours)
  {
  }
}
