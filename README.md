# TimurGamesBot game-session core in Dafny

This project models the bookkeeping behind TimurGamesBot, a Telegram bot
(aiogram over SQLite) that lets players create game sessions, join and leave
them, and get reminders to confirm their attendance. It also covers the chat
wizards that drive this bookkeeping. It proves properties of the model.

The model is organised as follows:

- **Store** (`tables.dfy`, `database.dfy`, `queries.dfy`). The five SQLite
  tables are values:
  - `users`, `sessions` and `user_session_events` are sequences in key order;
  - `participants` is a duplicate-free sequence of (session, user) pairs;
  - `session_confirmations` is a map from that pair to its status.

  Each writing SQL statement is a function from the old table to the new
  one. The class `Store.Database` holds the tables as fields. Each writing
  function of the data layer is a method of that class, whose `ensures`
  gives the new value of every field. Each `SELECT` is a function of the
  tables, with "now" and "today" as parameters.
- **Message window** (`cleaner.dfy`). The class `Cleaner.MessageCleaner`
  keeps, for each user, the messages to delete at the next flush, in the
  order they were registered. Its methods append and flush in place.
- **Transport** (`transport.dfy`). The class `Transport.Bot` stands for the
  Telegram side: a log of every send, edit and delete it is asked for. Two
  fixed sets decide which calls fail: a chat whose sends and edits all
  fail, and a message whose deletes fail. So the properties hold for any
  choice of failing chats and messages, but not for a call that fails
  while an earlier or later call to the same chat succeeds. Message texts are tags carrying the data the text is built
  from. The exceptions are the session list and the user lists, which are
  built character by character.
- **Conversation state** (`fsm.dfy`). The class `Fsm.FsmContext` is
  aiogram's per-user state and data.
- **Handlers**. Every handler of the core is a method over these objects:
  - `notifications.dfy`: the reminder job;
  - `session_callbacks.dfy`: the session buttons;
  - `session_wizard.dfy`: the session-creation wizard;
  - `registration.dfy`: registration;
  - `edit_profile.dfy`: profile editing;
  - `admin_callbacks.dfy` and `admin_wizard.dfy`: the administrator's
    buttons and wizards.
- **Parsing** (`validators.dfy`, `callback_data.dfy`, `text.dfy`,
  `calendar.dfy`). Input validation, callback-data parsing, text helpers
  and the calendar are pure functions.

Where the code and its documented intent differ, the model follows the
code:

- **Reminder window.** The window of `get_upcoming_sessions` is half-open
  at minute granularity, not inclusive at both ends. The start's text
  `"YYYY-MM-DD HH:MM:SS"` is compared with bounds printed as
  `"YYYY-MM-DD HH:MM"`.
- **Replies that raise.** `show_session_info` and the join and leave
  buttons call `callback.edit_text`, which `CallbackQuery` does not have.
  The handler therefore stops at that call. The store change before it is
  kept, and no message is edited.
- **Refusing a non-administrator.** The administrator handlers refuse
  anyone else in the same way. The model therefore makes no request and
  changes nothing for such a press.
- **Joining.** `join_session` checks neither `max_players` nor whether the
  session exists.
- **Deleting a session.** `delete_session` writes no event.
- **The event log.** Nothing calls `add_user_session_event`.
- **Unpadded dates.** `is_valid_date` uses strptime, which accepts `2024-1-5`. SQLite's datetime() reads that text as NULL. A session stored with such a date never appears in `get_user_sessions` and gets no reminders.

## Model

| member | source | states |
|---|---|---|
| Store.Database.constructor | app/services/database.py:9-43 | init_db on a new file: every table empty and the key invariant established |
| Store.Database.SaveUser | app/services/database.py:46-56 | the users table becomes the INSERT OR REPLACE of that row; no other table changes |
| Tables.Upsert | app/services/database.py:50 | the saved row is in the table, every other row was there before, and key order is kept |
| Tables.UpsertFind | app/services/database.py:50 | after the upsert the saved key reads the new row and every other key reads what it read before |
| Tables.SaveUser | app/services/database.py:46-56 | after INSERT OR REPLACE the user reads as the new row, not blocked and with no reason whatever it held before; every other id reads as before; key order is kept |
| Store.Database.CreateSession | app/services/database.py:72-88 | the returned id is larger than every existing id and is the id of the one row appended; no other table changes |
| Tables.CreateSession | app/services/database.py:77-79 | the insert keeps every old row as a prefix and appends exactly one row, whose id is the next rowid; key order is kept |
| Tables.NextSessionId | app/services/database.py:77-79 | the rowid of a new row exceeds every id in the table |
| Store.Database.JoinSession | app/services/database.py:91-104 | participants gain the pair with no check of max_players, of the session or of the user; other tables unchanged |
| Tables.Join | app/services/database.py:95-96 | INSERT OR IGNORE: the members are the old ones plus the pair, and the table stays duplicate-free |
| Tables.JoinTwiceOnce | app/services/database.py:95-96 | joining twice yields the same table as joining once, with the pair present exactly once |
| Store.Database.LeaveSession | app/services/database.py:152-164 | participants lose exactly that pair; other tables unchanged |
| Store.Database.RemoveParticipant | app/services/database.py:387-399 | the same DELETE as leave_session |
| Tables.Leave | app/services/database.py:156 | the members are the old ones minus the pair, a non-member leaves the table as it was, and no duplicate appears |
| Tables.LeaveAfterJoin | app/services/database.py:156 | leaving after joining an absent pair restores the table exactly |
| Store.Database.UpdateSessionConfirmation | app/services/database.py:369-385 | the confirmation of the pair becomes the status (upsert on the pair key); other tables unchanged |
| Tables.LastWriteWins | app/services/database.py:373-377 | after any sequence of updates of one pair, its stored status is the last one written, and other pairs keep theirs |
| Tables.Confirm | app/services/database.py:373-377 | the upsert stores the status for the pair and keeps every other pair and its status |
| Store.Database.DeleteSession | app/services/database.py:466-491 | returns true iff the session exists and the requester created it; then its participants, confirmations and row are gone; otherwise nothing changes; users and events never change |
| Tables.DropSession | app/services/database.py:478-488 | the rows left are exactly those with another id, in key order |
| Tables.DropSessionPairs | app/services/database.py:478-488 | the pairs left are exactly those of other sessions |
| Tables.DropSessionConfirmations | app/services/database.py:478-488 | the confirmations left are exactly those of other sessions, with their statuses |
| Store.Database.BlockUser | app/services/database.py:215-227 | users becomes block_user's UPDATE; other tables unchanged |
| Tables.BlockUserFind | app/services/database.py:219 | the user's row gets the flag and the reason; no other row changes; an unknown id changes nothing |
| Tables.BlockUser | app/services/database.py:219 | row by row: the rows with that id get the flag and the reason, every other row is as before |
| Store.Database.UnblockUser | app/services/database.py:229-241 | users becomes unblock_user's UPDATE; other tables unchanged |
| Tables.UnblockUserFind | app/services/database.py:233 | the user's row loses the flag and the reason; no other row changes |
| Tables.UnblockUser | app/services/database.py:233 | row by row: the rows with that id lose the flag and the reason, every other row is as before |
| Store.Database.UpdateUserInfo | app/services/database.py:448-463 | users becomes the name UPDATE and then the age UPDATE, each only when given |
| Tables.UpdateUserInfoFind | app/services/database.py:452-455 | only the given fields of that user's row change, and no other row changes |
| Tables.UpdateUserInfo | app/services/database.py:448-463 | row by row: the rows with that id take the given name and age, each only when given, and every other row is as before |
| Store.Database.AddUserSessionEvent | app/services/database.py:529-544 | the event log grows by one event with the next id and the given instant |
| Tables.AppendEvent | app/services/database.py:529-544 | the insert keeps every old event as a prefix and appends exactly one, whose id is the next id; key order is kept |
| Queries.SqlDateTime | app/services/database.py:347-356 | datetime(date \|\| ' ' \|\| time) on canonical text: a real instant when it is not NULL, and only for a dashed ten-character date |
| Queries.ListedRows | app/services/database.py:111-119 | every row lists a session that passes the WHERE clause, and every such session is listed |
| Queries.ListedRowsNoDuplicates | app/services/database.py:113-118 | with GROUP BY s.id over a table in key order, no session is listed twice |
| Queries.GetSessions | app/services/database.py:106-129 | ORDER BY only reorders: the result holds the rows of the WHERE clause, each as often as it passes |
| Queries.GetSessionsMeaning | app/services/database.py:106-129 | get_sessions lists exactly the sessions with a registered creator whose date text is not before today's and whose time text is not before the clock's, each once, with the same rows as the WHERE clause counted with multiplicity, sorted by (date, time) |
| Queries.LaterDayEarlierHourNotListed | app/services/database.py:117 | every session on a later day whose hour is before the current hour is not listed, since date and time are compared separately |
| Queries.StartingMinuteNotListed | app/services/database.py:117 | a session at HH:MM is not listed at any second of the minute HH:MM, on any day, since its time text sorts before the "HH:MM:SS" clock text |
| Queries.UserSessionRows | app/services/database.py:317-327 | the rows are exactly the user's created or joined sessions starting at or after the current minute |
| Queries.UserSessionRowsNoDuplicates | app/services/database.py:317-327 | over a table in key order, no session of the user appears twice |
| Queries.GetUserSessions | app/services/database.py:312-339 | ORDER BY only reorders: the result holds the rows of the WHERE clause with their multiplicity |
| Queries.GetUserSessionsMeaning | app/services/database.py:312-339 | the user's upcoming sessions, each once, tagged is_creator and with its participant count, ascending by (date, time) |
| Queries.UpcomingFor | app/services/database.py:347-356 | one row per participant of the session whose reminder is due and unanswered |
| Queries.GetUpcomingSessions | app/services/database.py:342-366 | every row returned is a participant pair whose confirmation is missing or pending |
| Queries.GetUpcomingSessionsMeaning | app/services/database.py:342-366 | exactly the (session, participant) pairs whose start lies in [now, now + hours) at minute granularity and whose status is missing or pending, each pair once; a confirmed or declined pair is never returned |
| Queries.UpcomingForNoDuplicates | app/services/database.py:347-356 | a participant of one session is returned at most once, because the (session_id, user_id) key is unique |
| Queries.UpcomingNoDuplicates | app/services/database.py:342-366 | no (session, participant) row repeats, so the reminder job sends at most one reminder per due pair |
| Queries.HistoryRows | app/services/database.py:498-516 | the rows are exactly the events of sessions the user is currently in, dated today or later and never left |
| Queries.GetUserSessionHistory | app/services/database.py:493-527 | at most 50 rows, each taken from the history rows no more often than it occurs there |
| Queries.GetUserSessionHistoryMeaning | app/services/database.py:493-527 | at most 50 such events, newest first, never a row more often than it occurs; exactly those rows with their multiplicity when there are at most 50; and any event dropped is no newer than every event kept |
| Queries.NewestDropsOlder | app/services/database.py:515-516 | the LIMIT 50 after ORDER BY timestamp DESC drops only events no newer than those kept |
| Queries.GetUserInfo | app/services/database.py:276-309 | None exactly for an unknown user; otherwise that user's name and age, the number of sessions they take part in, and the number they created: zero exactly when they created none, and with ids unique the number of distinct sessions they created |
| Queries.CreatedCount | app/services/database.py:288-290 | the count is at most the number of sessions, and zero exactly when the user created none |
| Queries.CreatedCountIsSize | app/services/database.py:288-290 | in a table in key order the count is the number of distinct sessions with that creator |
| Queries.CreatedAfterCreate | app/services/database.py:72-88 | create_session adds one to its creator's created count and nothing to anyone else's |
| Queries.CreatedAfterDrop | app/services/database.py:466-491 | deleting a session takes one off its creator's created count and nothing off anyone else's |
| Queries.AttendedAfterJoin | app/services/database.py:276-309 | joining a new session raises the participation count by one, and joining again leaves it unchanged |
| Queries.IsUserBlocked | app/services/database.py:183-197 | true exactly for a known user whose flag is set, so false for an unknown user |
| Queries.BlockedFlagRules | app/services/database.py:183-197 | blocking a known user sets the flag; unblocking or saving the user again clears it |
| Queries.GetSessionInfo | app/services/database.py:422-446 | the session with its creator's name, or None when either row is missing |
| Queries.GetSessionParticipants | app/services/database.py:401-420 | exactly the registered users paired with the session |
| Queries.ParticipantsDistinct | app/services/database.py:401-420 | each participant of the session is listed once, with a distinct user id |
| Queries.ParticipantListed | app/callbacks/game_session.py:95 | a registered user is among the participants exactly when the pair is in the table |
| Queries.GetAllUsers | app/services/database.py:199-213 | one line per user, in key order, with id, name and age |
| Queries.GetBlockedUsers | app/services/database.py:167-181 | the lines are exactly the blocked users with their reasons |
| Queries.StatisticsAddUp | app/services/database.py:244-273 | active and blocked users add up to all users, and the blocked count is the length of the blocked list |
| Queries.GetUserStatistics | app/services/database.py:244-273 | the totals are the sizes of the users and sessions tables, and neither user count exceeds the total |
| Cleaner.MessageCleaner.constructor | app/utils/message_cleaner.py:6-7 | no user has a window |
| Cleaner.MessageCleaner.AddMessageToDelete | app/utils/message_cleaner.py:9-12 | the handle is appended to the end of that user's window, which is created if absent |
| Cleaner.MessageCleaner.AddUserMessage | app/utils/message_cleaner.py:23-27 | the incoming message's handle is appended under its sender |
| Cleaner.MessageCleaner.DeletePreviousMessages | app/utils/message_cleaner.py:14-21 | one delete per handle, in window order, with failures skipped; then the window is empty; no message is sent |
| Cleaner.Deletions | app/utils/message_cleaner.py:16-18 | the i-th delete targets the i-th handle of the window |
| Cleaner.AppendedWindows | app/utils/message_cleaner.py:9-12 | a registration extends that user's window by the handle and changes no other window or entry |
| Cleaner.FlushedWindows | app/utils/message_cleaner.py:14-21 | a flush empties that window, creates no entry, changes no other window, and a second flush deletes nothing |
| Cleaner.Answer | app/callbacks/game_session.py:27-28 | an answer followed by its registration: one send, registered for the user exactly when delivered, and a stop signal when it raises |
| Notifications.ReminderButtonsReadBack | app/services/notifications.py:20-21 | both reminder buttons read back, through split("_")[1], as the row's session id |
| Notifications.FlushRecipients | app/services/notifications.py:13-14 | the first loop flushes the window of every row's recipient, in row order |
| Notifications.SendReminders | app/services/notifications.py:16-35 | one send per row in row order; a failed send is skipped; each delivered reminder is registered under its recipient |
| Notifications.RemindOne | app/services/notifications.py:17-35 | one turn of the send loop takes the request log, the windows and the message counter from their values after the first i rows to their values after the first i + 1 |
| Notifications.SendSessionReminders | app/services/notifications.py:7-39 | a failed fetch makes no request; otherwise all flushes, then all reminders, of the get_upcoming_sessions rows |
| Notifications.FlushAllWindows | app/services/notifications.py:13-14 | after the flush phase every recipient's window is empty and every other window unchanged |
| Notifications.AfterRemindersWindow | app/services/notifications.py:29-30 | the send phase adds to a window exactly the reminders delivered to its user, in row order |
| Notifications.FinalWindows | app/services/notifications.py:13-30 | at the end a recipient's window holds exactly their delivered reminders, even with several rows, and other windows are unchanged |
| Notifications.DeliveredCount | app/services/notifications.py:16-35 | the delivered count is at most the number of rows; it is all rows when every recipient is reachable and none when nobody is |
| CallbackData.GameName | app/callbacks/game_session.py:25 | split("_")[1] after "game_" is the text up to the next underscore |
| CallbackData.GameNameOther | app/callbacks/game_session.py:26 | "game_other" yields "other" |
| CallbackData.GameNameCutAtUnderscore | app/callbacks/game_session.py:25 | a game name holding an underscore is cut at it |
| CallbackData.GameNameIsHead | app/callbacks/game_session.py:25 | a name without underscores after "game_" reads back whole |
| CallbackData.SecondFieldRoundTrip | app/callbacks/game_session.py:133 | an id written after a one-word prefix (join, leave, confirm, decline) reads back through split("_")[1] |
| CallbackData.LastFieldRoundTrip | app/callbacks/game_session.py:69 | an id written after any prefix reads back through split("_")[-1] |
| CallbackData.SessionInfoNeedsLastField | app/callbacks/game_session.py:69 | for "session_info_{id}" the second field does not parse but the last one is the id |
| Validators.IsValidAge | app/utils/validators.py:4-5 | a number written as str() writes it is a valid age exactly when 0 < n < 120 |
| Validators.AgeBoundaries | app/utils/validators.py:4-5 | "0" and "120" are refused, "1" and "119" accepted; empty, signed and mixed texts are refused |
| Validators.IsValidRussianName | app/utils/validators.py:8-12 | an accepted name holds no digit and no Latin letter |
| Validators.HyphenatedName | app/utils/validators.py:8-12 | two accepted names joined by a hyphen are accepted |
| Validators.NameExamples | app/utils/validators.py:8-12 | two or more Cyrillic letters, hyphens or spaces are accepted; one letter and Latin letters are refused |
| Validators.IsValidTime | app/utils/validators.py:26-37 | is_valid_time holds exactly of two digits, ':', two digits, with hour at most 23 and minute at most 59 |
| Validators.ValidTimeValue | app/utils/validators.py:33 | strptime reads a valid time as its two two-digit numbers |
| Validators.TimeExamples | app/utils/validators.py:26-37 | bounds and a trailing-newline case that the regex accepts but strptime refuses |
| Validators.StrptimeDate | app/utils/validators.py:17 | whatever strptime reads is a real calendar date |
| Validators.CanonicalDateRoundTrip | app/utils/validators.py:17 | every real date written YYYY-MM-DD reads back as itself |
| Validators.ReadsCanonicalDate | app/utils/validators.py:17 | four year digits and two-digit month and day read as that date |
| Validators.IsValidDate | app/utils/validators.py:14-23 | an accepted date has eight to ten characters with a dash after the year, and a real date written YYYY-MM-DD is accepted exactly when it is not before today |
| Validators.DateExamples | app/utils/validators.py:17 | leap days, lenient single-digit fields and impossible days under strptime |
| Validators.TodayIsTheFirstDay | app/utils/validators.py:14-23 | for every today, today's own date text is accepted and the text of every earlier day refused |
| Calendar.SecondsOrder | app/handlers/game_session.py:53 | comparing datetimes field by field is comparing their elapsed seconds |
| SessionWizard.ProcessCustomGame | app/handlers/game_session.py:14-20 | any text becomes the game, and SettingDate is entered once the prompt is delivered; both messages are registered |
| SessionWizard.ProcessDate | app/handlers/game_session.py:23-35 | an invalid date stores nothing and keeps SettingDate; a valid one is stored and SettingTime entered when the prompt is delivered |
| SessionWizard.ScheduledAt | app/handlers/game_session.py:51 | the combined strptime yields a real date at second 0 |
| SessionWizard.DecideTime | app/handlers/game_session.py:41-56 | a bad format exactly when is_valid_time fails; an unreadable combination only with a stored date; a refusal only for a start at or before now; an acceptance with a stored date only for a start after now |
| SessionWizard.ProcessTime | app/handlers/game_session.py:38-61 | a bad format, a time not after now, or an unreadable combination keeps SettingTime and stores nothing; otherwise the time is stored and SettingMaxPlayers entered |
| SessionWizard.StoredDateParses | app/handlers/game_session.py:51 | a date the wizard accepted with a valid time always reads as that instant, so line 51 never raises on the wizard's own data |
| SessionWizard.CanonicalDateFields | app/utils/validators.py:17 | on a date written YYYY-MM-DD strptime reads the same three fields as SQLite, and succeeds exactly on a real date |
| SessionWizard.StoredTextReadsAlike | app/services/database.py:347-356 | on a canonical date and a valid time, SQLite's datetime() and the wizard's strptime read the same instant or both fail |
| SessionWizard.UnpaddedDateHasNoStart | app/handlers/game_session.py:23-35 | the wizard accepts "2024-1-5", which datetime() reads as NULL, so such a session has no start |
| SessionWizard.AcceptedIsLater | app/handlers/game_session.py:53-56 | an accepted time with a stored date is strictly after now |
| SessionWizard.CurrentMinuteRefused | app/handlers/game_session.py:53-56 | a time typed for the current minute is refused as not in the future |
| SessionWizard.NoDateNoClock | app/handlers/game_session.py:49 | without a stored date a well-formed time is accepted whatever the clock |
| SessionWizard.ProcessMaxPlayers | app/handlers/game_session.py:64-98 | the message is registered and the window flushed first; non-digits keep the state; digits (with 0) and stored input create the session, clear the state, join the creator and report the session |
| SessionWizard.CreateAndJoin | app/handlers/game_session.py:73-98 | create_session, state.clear(), join_session and the report, in that order |
| SessionWizard.CreatorTakesPart | app/handlers/game_session.py:75-79 | the creator is a participant of the new session, which is found by its id and was not there before |
| SessionWizard.PlayerLimitExamples | app/handlers/game_session.py:68 | "0" and "007" are digits (limits 0 and 7); "-1" and "" are refused |
| SessionCallbacks.ProcessGameSelection | app/callbacks/game_session.py:23-34 | "game_other" asks for a name and enters ChoosingGame without storing a game; game_X stores X and enters SettingDate; the state is set only once the prompt is delivered |
| SessionCallbacks.FormatSessionsList | app/callbacks/game_session.py:37-46 | the text is the header followed by one block per row, in row order |
| SessionCallbacks.InfoData | app/keyboards/sessions.py:8 | one session_info_{id} button per row, in row order |
| SessionCallbacks.ListButtonsReadBack | app/keyboards/sessions.py:8 | each list button reads back, through split("_")[-1], as the id of its row |
| SessionCallbacks.ShowSessions | app/callbacks/game_session.py:49-64 | one edit: the no-sessions notice for an empty listing, otherwise the formatted list with its buttons |
| SessionCallbacks.FirstWithId | app/callbacks/game_session.py:71 | the row found has the id and is in the rows; None exactly when no row has the id |
| SessionCallbacks.ShowSessionInfo | app/callbacks/game_session.py:67-105 | the details edit when the session is found in the listing, otherwise no request |
| SessionCallbacks.InfoOnlyForListed | app/callbacks/game_session.py:70-75 | details are shown exactly for the id of a session get_sessions lists; a filtered-out session reads as not found |
| SessionCallbacks.InfoButtonToggles | app/callbacks/game_session.py:94-100 | the first button leaves iff the caller is a participant and joins otherwise, and carries the shown session's id |
| SessionCallbacks.JoinGameSession | app/callbacks/game_session.py:116-121 | the pair is joined, and the handler stops at the failing reply before any bot call |
| SessionCallbacks.LeaveGameSession | app/callbacks/game_session.py:108-113 | the pair is deleted, and the handler stops at the failing reply before any bot call |
| SessionCallbacks.Others | app/callbacks/game_session.py:158-159 | no recipient is the user who answered |
| SessionCallbacks.OthersMembers | app/callbacks/game_session.py:158-159 | the recipients are exactly the participants other than the answering user |
| SessionCallbacks.OthersDistinct | app/callbacks/game_session.py:158-159 | participants with distinct ids give distinct recipients, so nobody is notified twice |
| SessionCallbacks.NotifyOthers | app/callbacks/game_session.py:158-161 | one send per other participant, in order, up to and including the first that raises |
| SessionCallbacks.NotifyAbout | app/callbacks/game_session.py:148-161 | no notifications when the session has no info; otherwise the notifications of the loop |
| SessionCallbacks.ConfirmSession | app/callbacks/game_session.py:131-161 | the status becomes confirmed, then the edit, then the notifications of the other participants |
| SessionCallbacks.AckAndNotify | app/callbacks/game_session.py:142-161 | the edit of the pressed message, then the notifications when the edit went through |
| SessionCallbacks.DeclineSession | app/callbacks/game_session.py:164-188 | the status becomes declined and the pair is removed, then the edit and the notifications on the remaining participants |
| SessionCallbacks.ConfirmRecipients | app/callbacks/game_session.py:149-160 | a confirmation notifies exactly the registered participants of the session other than the confirmer, each once |
| SessionCallbacks.DeclineRecipients | app/callbacks/game_session.py:170-187 | a decline notifies exactly the registered participants of the session before the decline, other than the decliner, each once |
| SessionCallbacks.AttemptedPrefix | app/callbacks/game_session.py:158-161 | the sends attempted are a prefix of the recipients, stopping only at an unreachable one, and reaching all when nobody is unreachable |
| SessionCallbacks.AnsweredNotReminded | app/services/database.py:347-356 | once confirmed or declined, a pair is never reminded again |
| AdminCallbacks.ChunksRebuild | app/callbacks/admin.py:24 | the parts concatenate back to the list, none is empty or longer than 4096, and all but the last have exactly 4096 characters |
| AdminCallbacks.ChunkAt | app/callbacks/admin.py:24 | part k is the slice starting at k * 4096 |
| AdminCallbacks.ChunkCount | app/callbacks/admin.py:22-24 | there are no parts exactly for the empty text, and two or more exactly for a text longer than the limit |
| AdminCallbacks.UserListLines | app/callbacks/admin.py:20 | the joined list has one line per user, in order, each that user's id, name and age |
| AdminCallbacks.ListUsersDelivers | app/callbacks/admin.py:22-29 | an over-long list reaches a reachable chat as two or more sends, none over the limit, that spell the list; a short one is a single edit |
| AdminCallbacks.SendParts | app/callbacks/admin.py:25-26 | one send per part, in order, stopping after the first that raises |
| AdminCallbacks.ListUsers | app/callbacks/admin.py:13-29 | a non-administrator gets no request; the administrator gets the parts or the edit |
| AdminCallbacks.BlockedReplyCases | app/callbacks/admin.py:32-46 | the nobody-is-blocked notice is shown exactly when no user is blocked, always with the management keyboard |
| AdminCallbacks.ShowBlockedUsers | app/callbacks/admin.py:32-46 | one edit for the administrator, nothing for anyone else |
| AdminCallbacks.StartBlockUser | app/callbacks/admin.py:49-56 | the administrator's press edits in the id prompt and enters WaitingForUserId once the edit succeeds; anyone else changes nothing |
| AdminCallbacks.StartUnblockUser | app/callbacks/admin.py:59-66 | the same with WaitingForUserIdUnblock |
| AdminCallbacks.StatisticsShown | app/callbacks/admin.py:69-77 | the counts shown are the table sizes, and active and blocked users add up to all users |
| AdminCallbacks.ShowUserStatistics | app/callbacks/admin.py:80-92 | one statistics edit for the administrator, nothing for anyone else |
| AdminCallbacks.RefreshStatistics | app/callbacks/admin.py:95-97 | the same as show_user_statistics |
| AdminWizard.ProcessUserIdForBlock | app/handlers/admin.py:12-21 | a non-digit id stores nothing and keeps the state; digits are stored and WaitingForBlockReason entered once the prompt is delivered |
| AdminWizard.ProcessBlockReason | app/handlers/admin.py:24-33 | the stored id is blocked with the text as reason, the state cleared and the block reported; with no id stored nothing changes |
| AdminWizard.ProcessUserIdForUnblock | app/handlers/admin.py:36-46 | digits unblock that id and clear the state; anything else keeps the state and changes nothing |
| AdminWizard.BlockThenUnblock | app/services/database.py:215-241 | blocking then unblocking gives back the row without flag or reason and touches no other row |
| AdminWizard.UserIdReadsBack | app/handlers/admin.py:14-18 | every id typed with any number of leading zeros is accepted and read back as that id; a text with a non-digit is refused |
| Registration.ProcessName | app/handlers/registration.py:13-27 | an invalid name stores nothing and keeps WaitingForName; a valid one stores name, username and id and enters WaitingForAge once the prompt is delivered |
| Registration.ProcessAge | app/handlers/registration.py:30-60 | an invalid age saves nothing and keeps the state; a valid age clears the state first, then saves the stored user with the integer age, or reports the failure |
| Registration.NameStepFeedsSave | app/handlers/registration.py:24-46 | what the name step stores is what the age step saves |
| Registration.RegistrationSavesUser | app/handlers/registration.py:41-46 | after the two steps the user's row has the typed name, the age and the username, is not blocked, and no other row changed |
| EditProfile.StartEditProfile | app/handlers/edit_profile.py:14-23 | the pressed message becomes the field menu, is registered, and ChoosingField is entered once the edit succeeds |
| EditProfile.ChooseField | app/handlers/edit_profile.py:25-41 | the window is flushed, the prompt sent and registered, and the editing state entered once delivered |
| EditProfile.EditName | app/handlers/edit_profile.py:25-32 | ChooseField for the name |
| EditProfile.EditAge | app/handlers/edit_profile.py:34-41 | ChooseField for the age |
| EditProfile.ProcessNewName | app/handlers/edit_profile.py:43-56 | a valid name updates only the name, flushes, registers the confirmation and clears the state; an invalid one updates nothing and keeps EditingName |
| EditProfile.ProcessNewAge | app/handlers/edit_profile.py:58-71 | the same for the age, written as an integer |
| EditProfile.CancelEdit | app/handlers/edit_profile.py:73-80 | flush and clear first, then the notice with the main menu, registered |
| EditProfile.AcceptedAnswerCleansUp | app/handlers/edit_profile.py:48-53 | an accepted answer deletes the whole window, the answer last; afterwards only the confirmation is in it; others' windows are untouched |
| EditProfile.EditChangesOneField | app/services/database.py:448-463 | a new name changes only that user's name and a new age only the age; block flag and reason stay |

## Left out

- The Telegram transport and aiogram are not modelled in detail. Send, edit and delete are calls that may fail, decided by the sets of `Transport.Bot`. Keyboard builders and message wording are reduced to callback data and content tags.
- Clocks are parameters: `date('now')` (UTC), `time('now', 'localtime')`, `datetime.now()` and `date.today()`.
- Connections, commits and logging are not modelled. Store statements never fail, so the except branches of the data layer are not modelled, including delete_session's false return on an error. The only database failures modelled are the failed fetch in the reminder job and a failed save in registration, each as a parameter.
- `delete_message_with_delay` and every form of concurrency are not modelled. Handlers run one at a time.
- Menu navigation, `/start`, help, `my_sessions`, `back_to_menu` and the `check_user_not_blocked` decorator are not part of this model; they are thin gates over modelled calls.
- `avg_sessions_per_user` and the text of `format_user_statistics` are not modelled. They involve float division, so only the four integer counts are shown.
- app/states/registration.py and app/states/edit_profile.py are not part of this model. Their states are taken from the handlers' filters.
- aiogram's state filters are preconditions: each wizard step requires its state.
- Messages without text (`message.text` None) are not modelled.
- Digits are ASCII only. `str.isdigit` and regex `\d` accept more in Unicode.
- `datetime.now()` is a parameter at second resolution. A scheduled time always has zero seconds, so it is later than the exact now exactly when it is later than now's whole second.
- SessionWizard.ScheduledAt reads the combined strptime of "date time" as the date and the time parsed separately. It does not model strptime's treatment of extra spaces.
- AdminCallbacks.UserListLines requires names without a newline. Names may contain one, since `\s` is in the name class, and such a name would split its line.
- Non-text FSM values are not modelled, and a `user_id` other than an integer is treated as an early stop of the handler.
- `get_all_users` has no ORDER BY, so the model reads it in key order.
- `get_session_participants` (app/services/database.py:131-150 and 401-420) has no ORDER BY. The model reads participants in insertion order. SQLite may answer through the (session_id, user_id) key index and so in user-id order. That order decides which notification send stops SessionCallbacks.NotifyOthers and the order of names in the session details.
- `get_upcoming_sessions` has no ORDER BY. The model reads sessions in key order and, for each, participants in insertion order. The reminder job's sends follow that order.
- AdminCallbacks.SendParts: a failing send belongs to the chat for the whole run, not to one call. In app/callbacks/admin.py:25-26 each part's send may raise on its own, for example under flood control, so the loop can stop after any part. The model can only fail the first part. Making every send, edit and delete of every handler fail by call would change the contracts of the whole transport.
- AdminCallbacks.ListUsersDelivers: for the same reason, "a reachable chat receives every part" holds only because no later send to that chat can fail.
- Notifications.DeliveredCount: counts deliveries by chat. Two reminders to the same user cannot have one fail and the other succeed, though each send in app/services/notifications.py:17-35 may raise on its own. SessionCallbacks.NotifyOthers and every edit share this limit: an edit cannot fail for a chat that accepts sends.
- `get_blocked_users` has no ORDER BY, so the model reads it in key order.
- Queries.SqlDateTime reads only canonical text: a date `YYYY-MM-DD` with a real day and a time `HH:MM` or `HH:MM:SS` with hour at most 23. SQLite's datetime() also reads a day past the month's end (normalising `2024-02-30` to `2024-03-01`), hour 24 and year 0000; the model returns None there. So the "exactly" of Queries.GetUserSessionsMeaning and Queries.GetUpcomingSessionsMeaning holds for such text only. SessionWizard.StoredTextReadsAlike shows that the wizard's own text with a padded date is canonical in this sense.
- The refusal a non-administrator gets, and the "not found" and join/leave replies, are calls that raise. They are modelled as the handler stopping before any request.
