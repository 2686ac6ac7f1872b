/**
 * The five SQLite tables of the bot as values, and each data-changing SQL
 * statement of the store as a function from the old table to the new one.
 * Tables whose rows are keyed by an INTEGER PRIMARY KEY (users, sessions,
 * user_session_events) are sequences in ascending key order, which is
 * the order a plain SELECT returns them in; participants is a sequence in
 * insertion order with no duplicate (session_id, user_id) pair; and
 * session_confirmations is a map from that pair to the status text.
 */
module Tables {
  import opened Wrappers
  import opened Calendar
  import opened Seqs

  /** A row of users; is_blocked is 0 or 1 in SQL. */
  datatype User = User(id: int, name: string, age: int, username: Option<string>, isBlocked: bool, blockReason: Option<string>)

  /** A row of sessions; date and time are the TEXT the creator typed. */
  datatype Session = Session(id: int, game: string, date: string, time: string, maxPlayers: int, creatorId: int)

  /** The key (session_id, user_id) of participants and of session_confirmations. */
  datatype Pair = Pair(sessionId: int, userId: int)

  /** A row of user_session_events; timestamp is CURRENT_TIMESTAMP at insertion. */
  datatype Event = Event(id: int, userId: int, sessionId: int, eventType: string, timestamp: DateTime)

  predicate UsersOrdered(users: seq<User>) {
    forall i, j :: 0 <= i < j < |users| ==> users[i].id < users[j].id
  }

  predicate SessionsOrdered(sessions: seq<Session>) {
    forall i, j :: 0 <= i < j < |sessions| ==> sessions[i].id < sessions[j].id
  }

  predicate EventsOrdered(events: seq<Event>) {
    forall i, j :: 0 <= i < j < |events| ==> events[i].id < events[j].id
  }

  /** SELECT ... FROM users WHERE id = ? */
  function FindUser(users: seq<User>, id: int): (r: Option<User>)
    ensures r.Some? ==> r.value in users && r.value.id == id
    ensures r.None? <==> forall u :: u in users ==> u.id != id
  {
    if |users| == 0 then None
    else if users[0].id == id then Some(users[0])
    else FindUser(users[1..], id)
  }

  /** SELECT ... FROM sessions WHERE id = ? */
  function FindSession(sessions: seq<Session>, id: int): (r: Option<Session>)
    ensures r.Some? ==> r.value in sessions && r.value.id == id
    ensures r.None? <==> forall s :: s in sessions ==> s.id != id
  {
    if |sessions| == 0 then None
    else if sessions[0].id == id then Some(sessions[0])
    else FindSession(sessions[1..], id)
  }

  // ---------------------------------------------------------------- users

  /** Replaces the row keyed u.id, or inserts u at its place in key order. */
  function Upsert(users: seq<User>, u: User): (r: seq<User>)
    ensures u in r
    ensures forall x :: x in r ==> x == u || x in users
    ensures UsersOrdered(users) ==> UsersOrdered(r)
  {
    if |users| == 0 then [u]
    else if u.id < users[0].id then
      assert UsersOrdered(users) ==> forall x :: x in users ==> u.id < x.id by {
        if UsersOrdered(users) {
          forall x | x in users ensures u.id < x.id {
            var m :| 0 <= m < |users| && users[m] == x;
            assert m == 0 || users[0].id < users[m].id;
          }
        }
      }
      [u] + users
    else if u.id == users[0].id then
      assert UsersOrdered(users) ==> forall i :: 1 <= i < |users| ==> u.id < users[i].id;
      [u] + users[1..]
    else
      var rest := Upsert(users[1..], u);
      assert UsersOrdered(users) ==> forall x :: x in rest ==> users[0].id < x.id by {
        if UsersOrdered(users) {
          forall x | x in rest ensures users[0].id < x.id {
            if x != u {
              var m :| 0 <= m < |users[1..]| && users[1..][m] == x;
              assert users[m + 1] == x;
            }
          }
        }
      }
      [users[0]] + rest
  }

  /** INSERT OR REPLACE INTO users (id, name, age, username): a fresh row, so is_blocked is back to 0 and block_reason NULL. */
  function SaveUser(users: seq<User>, id: int, name: string, age: int, username: Option<string>): (r: seq<User>)
    ensures UsersOrdered(users) ==> UsersOrdered(r)
    ensures forall k :: FindUser(r, k) == if k == id then Some(User(id, name, age, username, false, None)) else FindUser(users, k)
  {
    UpsertFindAll(users, User(id, name, age, username, false, None));
    Upsert(users, User(id, name, age, username, false, None))
  }

  /** After an upsert the key reads the new row and every other key reads as before. */
  lemma {:induction false} UpsertFind(users: seq<User>, u: User, k: int)
    ensures FindUser(Upsert(users, u), k) == if k == u.id then Some(u) else FindUser(users, k)
    decreases |users|
  {
    if |users| > 0 && u.id > users[0].id {
      UpsertFind(users[1..], u, k);
      assert Upsert(users, u)[1..] == Upsert(users[1..], u);
    } else if |users| > 0 && u.id == users[0].id {
      assert Upsert(users, u)[1..] == users[1..];
    } else if |users| > 0 {
      assert Upsert(users, u)[1..] == users;
    }
  }

  lemma UpsertFindAll(users: seq<User>, u: User)
    ensures forall k :: FindUser(Upsert(users, u), k) == if k == u.id then Some(u) else FindUser(users, k)
  {
    forall k ensures FindUser(Upsert(users, u), k) == if k == u.id then Some(u) else FindUser(users, k) {
      UpsertFind(users, u, k);
    }
  }

  /** UPDATE users SET ... WHERE id = ?, with f the SET clause; a missing key changes nothing. */
  function UpdateRow(users: seq<User>, id: int, f: User -> User): (r: seq<User>)
    ensures |r| == |users|
    ensures forall i :: 0 <= i < |r| ==> r[i] == if users[i].id == id then f(users[i]) else users[i]
  {
    if |users| == 0 then []
    else [if users[0].id == id then f(users[0]) else users[0]] + UpdateRow(users[1..], id, f)
  }

  /** An UPDATE whose SET clause keeps the key changes the row with that key, if any, and no other. */
  lemma {:induction false} UpdateRowFind(users: seq<User>, id: int, f: User -> User, k: int)
    requires UsersOrdered(users)
    requires forall u :: f(u).id == u.id
    ensures UsersOrdered(UpdateRow(users, id, f))
    ensures FindUser(UpdateRow(users, id, f), k) ==
      if k == id && FindUser(users, id).Some? then Some(f(FindUser(users, id).value)) else FindUser(users, k)
    decreases |users|
  {
    if |users| > 0 {
      UpdateRowFind(users[1..], id, f, k);
      assert UpdateRow(users, id, f)[1..] == UpdateRow(users[1..], id, f);
    }
  }

  function Block(reason: string): User -> User {
    (u: User) => u.(isBlocked := true, blockReason := Some(reason))
  }

  function Unblock(): User -> User {
    (u: User) => u.(isBlocked := false, blockReason := None)
  }

  function Rename(name: string): User -> User {
    (u: User) => u.(name := name)
  }

  function SetAge(age: int): User -> User {
    (u: User) => u.(age := age)
  }

  /** UPDATE users SET is_blocked = 1, block_reason = ? WHERE id = ? */
  function BlockUser(users: seq<User>, id: int, reason: string): (r: seq<User>)
    ensures |r| == |users|
    ensures forall i :: 0 <= i < |r| ==>
      r[i] == if users[i].id == id then users[i].(isBlocked := true, blockReason := Some(reason)) else users[i]
  {
    UpdateRow(users, id, Block(reason))
  }

  /** UPDATE users SET is_blocked = 0, block_reason = NULL WHERE id = ? */
  function UnblockUser(users: seq<User>, id: int): (r: seq<User>)
    ensures |r| == |users|
    ensures forall i :: 0 <= i < |r| ==>
      r[i] == if users[i].id == id then users[i].(isBlocked := false, blockReason := None) else users[i]
  {
    UpdateRow(users, id, Unblock())
  }

  /** update_user_info: the name UPDATE when a name is given, then the age UPDATE when an age is given. */
  function UpdateUserInfo(users: seq<User>, id: int, name: Option<string>, age: Option<int>): (r: seq<User>)
    ensures |r| == |users|
    ensures forall i :: 0 <= i < |r| ==>
      r[i] == if users[i].id == id then users[i].(name := if name.Some? then name.value else users[i].name,
                                                   age := if age.Some? then age.value else users[i].age)
              else users[i]
  {
    var named := if name.Some? then UpdateRow(users, id, Rename(name.value)) else users;
    if age.Some? then UpdateRow(named, id, SetAge(age.value)) else named
  }

  /** Blocking sets the flag and the reason of that user and touches no other row; an unknown id changes nothing. */
  lemma BlockUserFind(users: seq<User>, id: int, reason: string, k: int)
    requires UsersOrdered(users)
    ensures UsersOrdered(BlockUser(users, id, reason))
    ensures FindUser(BlockUser(users, id, reason), k) ==
      if k == id && FindUser(users, id).Some? then Some(FindUser(users, id).value.(isBlocked := true, blockReason := Some(reason)))
      else FindUser(users, k)
  {
    UpdateRowFind(users, id, Block(reason), k);
  }

  /** Unblocking clears the flag and the reason of that user and touches no other row. */
  lemma UnblockUserFind(users: seq<User>, id: int, k: int)
    requires UsersOrdered(users)
    ensures UsersOrdered(UnblockUser(users, id))
    ensures FindUser(UnblockUser(users, id), k) ==
      if k == id && FindUser(users, id).Some? then Some(FindUser(users, id).value.(isBlocked := false, blockReason := None))
      else FindUser(users, k)
  {
    UpdateRowFind(users, id, Unblock(), k);
  }

  /** update_user_info changes only the fields it is given, and only in that user's row. */
  lemma UpdateUserInfoFind(users: seq<User>, id: int, name: Option<string>, age: Option<int>, k: int)
    requires UsersOrdered(users)
    ensures UsersOrdered(UpdateUserInfo(users, id, name, age))
    ensures var before := FindUser(users, k);
      FindUser(UpdateUserInfo(users, id, name, age), k) ==
      if k == id && before.Some? then
        Some(before.value.(name := if name.Some? then name.value else before.value.name,
                           age := if age.Some? then age.value else before.value.age))
      else before
  {
    var named := if name.Some? then UpdateRow(users, id, Rename(name.value)) else users;
    if name.Some? {
      UpdateRowFind(users, id, Rename(name.value), k);
      UpdateRowFind(users, id, Rename(name.value), id);
    }
    if age.Some? {
      UpdateRowFind(named, id, SetAge(age.value), k);
    }
  }

  // ------------------------------------------------------------- sessions

  /** The rowid SQLite gives a new row: one more than the largest, or 1 in an empty table. */
  function NextSessionId(sessions: seq<Session>): (id: int)
    ensures SessionsOrdered(sessions) ==> forall s :: s in sessions ==> s.id < id
  {
    if |sessions| == 0 then 1 else sessions[|sessions| - 1].id + 1
  }

  /** INSERT INTO sessions (game, date, time, max_players, creator_id) */
  function CreateSession(sessions: seq<Session>, game: string, date: string, time: string, maxPlayers: int, creatorId: int): (r: seq<Session>)
    ensures SessionsOrdered(sessions) ==> SessionsOrdered(r)
    ensures |r| == |sessions| + 1 && r[..|sessions|] == sessions
    ensures r[|sessions|] == Session(NextSessionId(sessions), game, date, time, maxPlayers, creatorId)
  {
    var r := sessions + [Session(NextSessionId(sessions), game, date, time, maxPlayers, creatorId)];
    assert SessionsOrdered(sessions) ==> forall i :: 0 <= i < |sessions| ==> r[i] in sessions;
    r
  }

  /** DELETE FROM sessions WHERE id = ? */
  function DropSession(sessions: seq<Session>, id: int): (r: seq<Session>)
    ensures forall s :: s in r <==> s in sessions && s.id != id
    ensures SessionsOrdered(sessions) ==> SessionsOrdered(r)
  {
    if |sessions| == 0 then []
    else
      var rest := DropSession(sessions[1..], id);
      assert SessionsOrdered(sessions) ==> forall s :: s in rest ==> sessions[0].id < s.id by {
        if SessionsOrdered(sessions) {
          forall s | s in rest ensures sessions[0].id < s.id {
            var m :| 0 <= m < |sessions[1..]| && sessions[1..][m] == s;
            assert sessions[m + 1] == s;
          }
        }
      }
      if sessions[0].id == id then rest else [sessions[0]] + rest
  }

  // --------------------------------------------------------- participants

  /** INSERT OR IGNORE INTO participants: the pair is added once; nothing checks max_players. */
  function Join(ps: seq<Pair>, p: Pair): (r: seq<Pair>)
    ensures forall q :: q in r <==> q in ps || q == p
    ensures NoDuplicates(ps) ==> NoDuplicates(r)
  {
    if p in ps then ps else ps + [p]
  }

  /** DELETE FROM participants WHERE session_id = ? AND user_id = ? (leave_session and remove_participant alike). */
  function Leave(ps: seq<Pair>, p: Pair): (r: seq<Pair>)
    ensures forall q :: q in r <==> q in ps && q != p
    ensures p !in ps ==> r == ps
    ensures NoDuplicates(ps) ==> NoDuplicates(r)
  {
    if |ps| == 0 then []
    else
      assert ps == [ps[0]] + ps[1..];
      var rest := Leave(ps[1..], p);
      assert NoDuplicates(ps) ==> NoDuplicates(ps[1..]) && ps[0] !in rest;
      (if ps[0] == p then [] else [ps[0]]) + rest
  }

  /** DELETE FROM participants WHERE session_id = ? */
  function DropSessionPairs(ps: seq<Pair>, sessionId: int): (r: seq<Pair>)
    ensures forall q :: q in r <==> q in ps && q.sessionId != sessionId
    ensures NoDuplicates(ps) ==> NoDuplicates(r)
  {
    if |ps| == 0 then []
    else (if ps[0].sessionId == sessionId then [] else [ps[0]]) + DropSessionPairs(ps[1..], sessionId)
  }

  /** Joining an absent pair and leaving again gives back the table as it was. */
  lemma {:induction false} LeaveAfterJoin(ps: seq<Pair>, p: Pair)
    requires p !in ps
    ensures Leave(Join(ps, p), p) == ps
    decreases |ps|
  {
    if |ps| == 0 {
    } else {
      LeaveAfterJoin(ps[1..], p);
      assert (ps + [p])[1..] == ps[1..] + [p];
    }
  }

  /** Joining twice leaves the pair in the table exactly once. */
  lemma JoinTwiceOnce(ps: seq<Pair>, p: Pair)
    requires NoDuplicates(ps)
    ensures Join(Join(ps, p), p) == Join(ps, p)
    ensures multiset(Join(Join(ps, p), p))[p] == 1
  {
    OnlyOnce(Join(ps, p), p);
  }

  // -------------------------------------------------------- confirmations

  /** INSERT ... ON CONFLICT(session_id, user_id) DO UPDATE SET status = ? */
  function Confirm(c: map<Pair, string>, p: Pair, status: string): (r: map<Pair, string>)
    ensures p in r && r[p] == status
    ensures forall q :: q != p ==> (q in r <==> q in c) && (q in c ==> r[q] == c[q])
  {
    c[p := status]
  }

  /** The last status written for a pair is the one stored, and the other pairs keep theirs. */
  lemma {:induction false} LastWriteWins(c: map<Pair, string>, p: Pair, writes: seq<string>, q: Pair)
    requires |writes| > 0
    ensures var r := ConfirmAll(c, p, writes);
      p in r && r[p] == writes[|writes| - 1] && (q != p ==> (q in r <==> q in c) && (q in c ==> r[q] == c[q]))
    decreases |writes|
  {
    if |writes| > 1 {
      LastWriteWins(Confirm(c, p, writes[0]), p, writes[1..], q);
    }
  }

  /** Several confirmation updates of one pair, in order. */
  function ConfirmAll(c: map<Pair, string>, p: Pair, writes: seq<string>): map<Pair, string>
    decreases |writes|
  {
    if |writes| == 0 then c else ConfirmAll(Confirm(c, p, writes[0]), p, writes[1..])
  }

  /** DELETE FROM session_confirmations WHERE session_id = ? */
  function DropSessionConfirmations(c: map<Pair, string>, sessionId: int): (r: map<Pair, string>)
    ensures forall q :: q in r <==> q in c && q.sessionId != sessionId
    ensures forall q :: q in r ==> r[q] == c[q]
  {
    map q | q in c && q.sessionId != sessionId :: c[q]
  }

  // --------------------------------------------------------------- events

  function NextEventId(events: seq<Event>): (id: int)
    ensures EventsOrdered(events) ==> forall e :: e in events ==> e.id < id
  {
    if |events| == 0 then 1 else events[|events| - 1].id + 1
  }

  /** INSERT INTO user_session_events (user_id, session_id, event_type), timestamp by default now. */
  function AppendEvent(events: seq<Event>, userId: int, sessionId: int, eventType: string, now: DateTime): (r: seq<Event>)
    ensures EventsOrdered(events) ==> EventsOrdered(r)
    ensures |r| == |events| + 1 && r[..|events|] == events
    ensures r[|events|] == Event(NextEventId(events), userId, sessionId, eventType, now)
  {
    var r := events + [Event(NextEventId(events), userId, sessionId, eventType, now)];
    assert EventsOrdered(events) ==> forall i :: 0 <= i < |events| ==> r[i] in events;
    r
  }
}
