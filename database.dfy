/**
 * The store: the five tables as fields of one object, and each function of
 * the data layer that writes as a method running its SQL statements in
 * order. Connection handling, commits and the logging around every
 * statement are not modelled; a statement never fails here.
 */
module Store {
  import opened Wrappers
  import opened Calendar
  import opened Seqs
  import opened Tables

  class Database {
    var users: seq<User>
    var sessions: seq<Session>
    var participants: seq<Pair>
    var confirmations: map<Pair, string>
    var events: seq<Event>

    /** Keys are unique: the three rowid tables in key order, no participant pair twice. */
    ghost predicate Valid()
      reads this
    {
      UsersOrdered(users) && SessionsOrdered(sessions) && NoDuplicates(participants) && EventsOrdered(events)
    }

    /** init_db on a new file: every table empty. */
    constructor()
      ensures Valid()
      ensures users == [] && sessions == [] && participants == [] && confirmations == map[] && events == []
    {
      users := [];
      sessions := [];
      participants := [];
      confirmations := map[];
      events := [];
    }

    /** save_user */
    method SaveUser(name: string, age: int, username: Option<string>, id: int)
      requires Valid()
      modifies this
      ensures Valid()
      ensures users == Tables.SaveUser(old(users), id, name, age, username)
      ensures sessions == old(sessions) && participants == old(participants)
      ensures confirmations == old(confirmations) && events == old(events)
    {
      users := Tables.SaveUser(users, id, name, age, username);
    }

    /** create_session: the new row's id, larger than every id before it. */
    method CreateSession(game: string, date: string, time: string, maxPlayers: int, creatorId: int) returns (id: int)
      requires Valid()
      modifies this
      ensures Valid()
      ensures id == NextSessionId(old(sessions)) && forall s :: s in old(sessions) ==> s.id < id
      ensures sessions == Tables.CreateSession(old(sessions), game, date, time, maxPlayers, creatorId)
      ensures users == old(users) && participants == old(participants)
      ensures confirmations == old(confirmations) && events == old(events)
    {
      id := NextSessionId(sessions);
      sessions := Tables.CreateSession(sessions, game, date, time, maxPlayers, creatorId);
    }

    /** join_session: no check of the session, its max_players or the user. */
    method JoinSession(sessionId: int, userId: int)
      requires Valid()
      modifies this
      ensures Valid()
      ensures participants == Join(old(participants), Pair(sessionId, userId))
      ensures users == old(users) && sessions == old(sessions)
      ensures confirmations == old(confirmations) && events == old(events)
    {
      participants := Join(participants, Pair(sessionId, userId));
    }

    /** leave_session */
    method LeaveSession(sessionId: int, userId: int)
      requires Valid()
      modifies this
      ensures Valid()
      ensures participants == Leave(old(participants), Pair(sessionId, userId))
      ensures users == old(users) && sessions == old(sessions)
      ensures confirmations == old(confirmations) && events == old(events)
    {
      participants := Leave(participants, Pair(sessionId, userId));
    }

    /** remove_participant: the same DELETE as leave_session. */
    method RemoveParticipant(sessionId: int, userId: int)
      requires Valid()
      modifies this
      ensures Valid()
      ensures participants == Leave(old(participants), Pair(sessionId, userId))
      ensures users == old(users) && sessions == old(sessions)
      ensures confirmations == old(confirmations) && events == old(events)
    {
      LeaveSession(sessionId, userId);
    }

    /** update_session_confirmation */
    method UpdateSessionConfirmation(sessionId: int, userId: int, status: string)
      requires Valid()
      modifies this
      ensures Valid()
      ensures confirmations == Confirm(old(confirmations), Pair(sessionId, userId), status)
      ensures users == old(users) && sessions == old(sessions)
      ensures participants == old(participants) && events == old(events)
    {
      confirmations := Confirm(confirmations, Pair(sessionId, userId), status);
    }

    /**
     * delete_session: only the creator of an existing session may delete
     * it; then its participants, its confirmations and the session row go,
     * in that order. The event log is never touched.
     */
    method DeleteSession(sessionId: int, userId: int) returns (ok: bool)
      requires Valid()
      modifies this
      ensures Valid()
      ensures ok <==> FindSession(old(sessions), sessionId).Some? && FindSession(old(sessions), sessionId).value.creatorId == userId
      ensures ok ==>
        participants == DropSessionPairs(old(participants), sessionId)
        && confirmations == DropSessionConfirmations(old(confirmations), sessionId)
        && sessions == DropSession(old(sessions), sessionId)
      ensures !ok ==> participants == old(participants) && confirmations == old(confirmations) && sessions == old(sessions)
      ensures users == old(users) && events == old(events)
    {
      var found := FindSession(sessions, sessionId);
      if found.None? || found.value.creatorId != userId {
        return false;
      }
      participants := DropSessionPairs(participants, sessionId);
      confirmations := DropSessionConfirmations(confirmations, sessionId);
      sessions := DropSession(sessions, sessionId);
      return true;
    }

    /** block_user */
    method BlockUser(id: int, reason: string)
      requires Valid()
      modifies this
      ensures Valid()
      ensures users == Tables.BlockUser(old(users), id, reason)
      ensures sessions == old(sessions) && participants == old(participants)
      ensures confirmations == old(confirmations) && events == old(events)
    {
      BlockUserFind(users, id, reason, id);
      users := Tables.BlockUser(users, id, reason);
    }

    /** unblock_user */
    method UnblockUser(id: int)
      requires Valid()
      modifies this
      ensures Valid()
      ensures users == Tables.UnblockUser(old(users), id)
      ensures sessions == old(sessions) && participants == old(participants)
      ensures confirmations == old(confirmations) && events == old(events)
    {
      UnblockUserFind(users, id, id);
      users := Tables.UnblockUser(users, id);
    }

    /** update_user_info: None for an argument left at its default. */
    method UpdateUserInfo(id: int, name: Option<string>, age: Option<int>)
      requires Valid()
      modifies this
      ensures Valid()
      ensures users == Tables.UpdateUserInfo(old(users), id, name, age)
      ensures sessions == old(sessions) && participants == old(participants)
      ensures confirmations == old(confirmations) && events == old(events)
    {
      UpdateUserInfoFind(users, id, name, age, id);
      users := Tables.UpdateUserInfo(users, id, name, age);
    }

    /** add_user_session_event, with now the UTC instant CURRENT_TIMESTAMP reads. */
    method AddUserSessionEvent(userId: int, sessionId: int, eventType: string, now: DateTime)
      requires Valid()
      modifies this
      ensures Valid()
      ensures events == AppendEvent(old(events), userId, sessionId, eventType, now)
      ensures users == old(users) && sessions == old(sessions)
      ensures participants == old(participants) && confirmations == old(confirmations)
    {
      events := AppendEvent(events, userId, sessionId, eventType, now);
    }
  }
}
